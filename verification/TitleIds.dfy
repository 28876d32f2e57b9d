// Title ID arithmetic on 64-bit words (title.h), wrap-around included.

module TitleIds {
  import opened Bytes
  import opened Bits

  const WORD_SIZE: nat := 0x1_0000_0000_0000_0000

  type Id = x: nat | x < WORD_SIZE

  const PATCH_OFFSET: nat := 0x800
  const ADD_ON_OFFSET: nat := 0x1000
  const MIN_INDEX: nat := 1
  const MAX_INDEX: nat := 2000
  const DELTA_OFFSET: nat := 0xC00

  function Add(a: Id, b: nat): Id { (a + b) % WORD_SIZE }

  function Sub(a: Id, b: nat): Id { (a - b) % WORD_SIZE }

  const PAGE_SIZE: nat := 0x1000

  // TITLE_ADDONCONTENT_CONVERSION_MASK clears the bits below 0x1000.
  function Mask(a: Id): (m: Id)
    ensures m <= a
  {
    AlignDown(a, PAGE_SIZE)
  }

  function PatchOf(app: Id): Id { Add(app, PATCH_OFFSET) }
  function AppOfPatch(patch: Id): Id { Sub(patch, PATCH_OFFSET) }
  function DeltaOf(app: Id): Id { Add(app, DELTA_OFFSET) }
  function AppOfDelta(delta: Id): Id { Sub(delta, DELTA_OFFSET) }
  function AddOnBase(app: Id): Id { Add(Mask(app), ADD_ON_OFFSET) }
  function AppOfAddOn(aoc: Id): Id { Mask(Sub(aoc, ADD_ON_OFFSET)) }
  function DataPatchOf(aoc: Id): Id { Add(aoc, PATCH_OFFSET) }
  function AddOnOfDataPatch(patch: Id): Id { Sub(patch, PATCH_OFFSET) }
  function AddOnByIndex(app: Id, index: nat): Id { Add(AddOnBase(app), 1 + index) }

  predicate AddOnBelongs(app: Id, aoc: Id) {
    Add(AddOnBase(app), MIN_INDEX) <= aoc <= Add(AddOnBase(app), MAX_INDEX)
  }

  predicate Siblings(a: Id, b: Id) {
    AppOfAddOn(a) == AppOfAddOn(b) && AddOnBelongs(AppOfAddOn(a), a) && AddOnBelongs(AppOfAddOn(b), b)
  }

  predicate DataPatchBelongs(app: Id, patch: Id) { AddOnBelongs(app, AddOnOfDataPatch(patch)) }

  // An add-on ID that belongs to some application.
  predicate ValidAddOn(aoc: Id) { AddOnBelongs(AppOfAddOn(aoc), aoc) }

  lemma MaskClearsLowBits(a: Id)
    ensures Mask(a) == a - a % 0x1000 && Mask(a) % 0x1000 == 0 && Mask(Mask(a)) == Mask(a)
  {
    assert PowerOfTwo(PAGE_SIZE) by { assert Pow2(12) == PAGE_SIZE; }
    AlignDownIsGreatest(a, PAGE_SIZE);
    AlignDownIsGreatest(Mask(a), PAGE_SIZE);
  }

  lemma Wraps(n: int, w: int, r: nat)
    requires n == w * WORD_SIZE + r && r < WORD_SIZE
    ensures n % WORD_SIZE == r
  {
    ModUnique(n, WORD_SIZE, w, r);
  }

  // Adding and taking off an offset are inverse to each other, for all IDs.
  lemma OffsetRoundTrip(a: Id, d: nat)
    requires d < WORD_SIZE
    ensures Sub(Add(a, d), d) == a && Add(Sub(a, d), d) == a
  {
    if a + d < WORD_SIZE { Wraps(a + d, 0, a + d); } else { Wraps(a + d, 1, a + d - WORD_SIZE); }
    if a >= d { Wraps(a - d, 0, a - d); } else { Wraps(a - d, -1, a - d + WORD_SIZE); }
    Wraps(a, 0, a);
    Wraps(a - WORD_SIZE, -1, a);
    Wraps(a + WORD_SIZE, 1, a);
  }

  lemma PatchAndDeltaRoundTrip(app: Id, id: Id)
    ensures AppOfPatch(PatchOf(app)) == app && AppOfDelta(DeltaOf(app)) == app
    ensures PatchOf(AppOfPatch(id)) == id && DeltaOf(AppOfDelta(id)) == id
    ensures AddOnOfDataPatch(DataPatchOf(id)) == id
  {
    OffsetRoundTrip(app, PATCH_OFFSET);
    OffsetRoundTrip(app, DELTA_OFFSET);
    OffsetRoundTrip(id, PATCH_OFFSET);
    OffsetRoundTrip(id, DELTA_OFFSET);
  }

  // Where the IDs of one application lie: its own, its patch, its delta, and the add-on contents from
  // the next page on with their data patches.
  lemma IdsOfAnApplication(app: Id, index: nat)
    requires app % 0x1000 == 0 && index < 2000
    ensures PatchOf(app) == app + 0x800 && DeltaOf(app) == app + 0xC00
    ensures app + 0x2000 <= WORD_SIZE ==>
              && AddOnByIndex(app, index) == app + 0x1001 + index
              && DataPatchOf(AddOnByIndex(app, index)) == app + 0x1801 + index
  {
    PageEnds(app);
    NoWrap(app, PATCH_OFFSET);
    NoWrap(app, DELTA_OFFSET);
    MaskClearsLowBits(app);
    if app + 0x2000 <= WORD_SIZE { AddOnPlace(app, index); }
  }

  lemma AddOnPlace(app: Id, index: nat)
    requires Mask(app) == app && app + 0x2000 <= WORD_SIZE && index < 2000
    ensures AddOnByIndex(app, index) == app + 0x1001 + index
    ensures DataPatchOf(AddOnByIndex(app, index)) == app + 0x1801 + index
  {
    NoWrap(app, ADD_ON_OFFSET);
    NoWrap(app + 0x1000, 1 + index);
    NoWrap(app + 0x1001 + index, PATCH_OFFSET);
  }

  // A multiple of 0x1000 below the word size is at least 0x1000 below it.
  lemma PageEnds(m: nat)
    requires m % 0x1000 == 0 && m < WORD_SIZE
    ensures m + 0x1000 <= WORD_SIZE && (m + 0x1000) % 0x1000 == 0
  {
  }

  lemma NextPage(m: Id)
    requires m % 0x1000 == 0
    ensures var b := Add(m, ADD_ON_OFFSET);
            b == (if m + 0x1000 == WORD_SIZE then 0 else m + 0x1000) && b % 0x1000 == 0
  {
    PageEnds(m);
    if m + 0x1000 < WORD_SIZE { Wraps(m + 0x1000, 0, m + 0x1000); } else { Wraps(m + 0x1000, 1, 0); }
  }

  lemma NoWrap(b: Id, k: nat)
    requires b + k < WORD_SIZE
    ensures Add(b, k) == b + k
  {
    Wraps(b + k, 0, b + k);
  }

  // The base is aligned, so the range above it never wraps around.
  lemma BaseRange(app: Id)
    ensures AddOnBase(app) % 0x1000 == 0 && AddOnBase(app) + 0x1000 <= WORD_SIZE
    ensures AddOnBase(app) == if Mask(app) + 0x1000 == WORD_SIZE then 0 else Mask(app) + 0x1000
    ensures forall k: nat :: k < 0x1000 ==> Add(AddOnBase(app), k) == AddOnBase(app) + k
  {
    MaskClearsLowBits(app);
    NextPage(Mask(app));
    var base := AddOnBase(app);
    PageEnds(base);
    forall k: nat | k < 0x1000 ensures Add(base, k) == base + k {
      NoWrap(base, k);
    }
  }

  lemma Belongs(app: Id, aoc: Id)
    ensures AddOnBelongs(app, aoc) <==> 1 <= aoc - AddOnBase(app) <= 2000
  {
    BaseRange(app);
    assert Add(AddOnBase(app), MIN_INDEX) == AddOnBase(app) + 1;
    assert Add(AddOnBase(app), MAX_INDEX) == AddOnBase(app) + 2000;
  }

  // Taking the offset off an ID above the base leads back above the masked application ID.
  lemma BelowBase(app: Id, aoc: Id, d: nat)
    requires aoc == AddOnBase(app) + d && d < 0x1000
    ensures Sub(aoc, ADD_ON_OFFSET) == Mask(app) + d
  {
    BaseRange(app);
    if AddOnBase(app) == 0 { Wraps(aoc - 0x1000, -1, Mask(app) + d); } else { Wraps(aoc - 0x1000, 0, Mask(app) + d); }
  }

  // An add-on ID that belongs to an application converts back to that application, with its low
  // twelve bits cleared.
  lemma AddOnConvertsBack(app: Id, aoc: Id)
    requires AddOnBelongs(app, aoc)
    ensures AppOfAddOn(aoc) == Mask(app)
  {
    Belongs(app, aoc);
    var d := aoc - AddOnBase(app);
    BelowBase(app, aoc, d);
    MaskClearsLowBits(app);
    MaskOfSum(Mask(app), d);
  }

  lemma MaskOfSum(m: nat, d: nat)
    requires m % 0x1000 == 0 && d < 0x1000 && m + d < WORD_SIZE
    ensures Mask(m + d) == m
  {
    MaskClearsLowBits(m + d);
    LowBits(m, d);
  }

  lemma LowBits(m: nat, d: nat)
    requires m % 0x1000 == 0 && d < 0x1000
    ensures (m + d) % 0x1000 == d
  {
  }

  // Belonging depends on the application's upper bits only, and add-on IDs of different
  // applications differ.
  lemma BelongsToOneApplication(app: Id, other: Id, aoc: Id)
    requires AddOnBelongs(app, aoc)
    ensures AddOnBelongs(other, aoc) <==> Mask(other) == Mask(app)
  {
    AddOnConvertsBack(app, aoc);
    if AddOnBelongs(other, aoc) { AddOnConvertsBack(other, aoc); }
  }

  // The sibling check is an equivalence on the valid add-on IDs, and holds of no others.
  lemma SiblingsAreEquivalent(a: Id, b: Id, c: Id)
    ensures Siblings(a, a) <==> ValidAddOn(a)
    ensures Siblings(a, b) <==> Siblings(b, a)
    ensures Siblings(a, b) && Siblings(b, c) ==> Siblings(a, c)
    ensures Siblings(a, b) ==> ValidAddOn(a) && ValidAddOn(b)
  {
  }

  // Siblings are exactly the add-on IDs that belong to one application together.
  lemma SiblingsShareAnApplication(a: Id, b: Id)
    ensures Siblings(a, b) <==> exists app: Id :: AddOnBelongs(app, a) && AddOnBelongs(app, b)
  {
    if app: Id :| AddOnBelongs(app, a) && AddOnBelongs(app, b) {
      AddOnConvertsBack(app, a);
      AddOnConvertsBack(app, b);
      MaskClearsLowBits(app);
      BelongsToOneApplication(app, Mask(app), a);
      BelongsToOneApplication(app, Mask(app), b);
    }
  }

  // The add-on contents of an application and their data patches never share an ID.
  lemma AddOnsAndDataPatchesAreApart(app: Id, id: Id)
    ensures !(AddOnBelongs(app, id) && DataPatchBelongs(app, id))
  {
    Belongs(app, id);
    Belongs(app, AddOnOfDataPatch(id));
    BaseRange(app);
    if id >= 0x800 { Wraps(id - 0x800, 0, id - 0x800); } else { Wraps(id - 0x800, -1, id - 0x800 + WORD_SIZE); }
  }

  // The 16-bit zero-based index of an add-on content is in range exactly when its ID belongs to the
  // application, wherever the sum wraps around.
  lemma IndexBelongs(app: Id, index: nat)
    requires index < 0x1_0000
    ensures AddOnBelongs(app, AddOnByIndex(app, index)) <==> index < 2000
  {
    BaseRange(app);
    Belongs(app, AddOnByIndex(app, index));
    var id := AddOnBase(app) + (1 + index);
    if id < WORD_SIZE { Wraps(id, 0, id); } else { Wraps(id, 1, id - WORD_SIZE); }
  }
}
