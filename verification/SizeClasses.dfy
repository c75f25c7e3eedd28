// Size classes of the arena: which requests are small, large or huge, and which slab or page level serves them.
module SizeClasses {
  import opened Bits

  const PAGE_MAX_LEVELS: nat := 6
  const SLAB_MAX_LEVELS: nat := 46
  const SLAB_MIN_LEVELS: nat := 16
  const SLAB_LEVEL_MIN_STEP: nat := 8
  const SLAB_LEVEL_MAX_STEP: nat := 64
  const SIZE_LIMIT_SMALL: nat := 4 * 1024
  const SIZE_LIMIT_LARGE: nat := 128 * 1024
  // What the searches return when no level fits: -1 converted to an unsigned 16-bit integer.
  const NO_LEVEL: nat := 0xFFFF

  datatype SizeKind = SmallObject | LargeObject | HugeObject

  function DivideSize(size: nat): SizeKind {
    if size < SIZE_LIMIT_SMALL / 2 then SmallObject
    else if size < SIZE_LIMIT_LARGE then LargeObject
    else HugeObject
  }

  function PageSize(level: nat): (size: nat)
    ensures 4096 <= size
  {
    assert Pow2(level + 2) == 4 * Pow2(level);
    1024 * Pow2(level + 2)
  }

  function SlabSize(level: nat): nat {
    if level < SLAB_MIN_LEVELS then (level + 1) * SLAB_LEVEL_MIN_STEP
    else SLAB_MIN_LEVELS * SLAB_LEVEL_MIN_STEP + (level - SLAB_MIN_LEVELS + 1) * SLAB_LEVEL_MAX_STEP
  }

  lemma PageSizeDoubles(level: nat)
    ensures PageSize(level + 1) == 2 * PageSize(level)
  {
  }

  lemma PageSizeGrows(j: nat, k: nat)
    requires j < k
    ensures 2 * PageSize(j) <= PageSize(k)
  {
    Pow2Monotone(j + 2, k + 2);
  }

  lemma PageSizeValues()
    ensures PageSize(0) == 4096 && PageSize(1) == 8192 && PageSize(2) == 16384
    ensures PageSize(3) == 32768 && PageSize(4) == 65536 && PageSize(5) == SIZE_LIMIT_LARGE
    ensures PageSize(12) == 16 * 1024 * 1024
  {
    assert Pow2(2) == 4 && Pow2(3) == 8 && Pow2(4) == 16 && Pow2(5) == 32 && Pow2(6) == 64 && Pow2(7) == 128;
    assert Pow2(9) == 512 && Pow2(11) == 2048 && Pow2(13) == 8192 && Pow2(14) == 16384;
  }

  lemma SizeOfLevel(size: nat, level: nat)
    requires level < PAGE_MAX_LEVELS && size <= PageSize(level)
    ensures size <= SIZE_LIMIT_LARGE
  {
    PageSizeValues();
    if level < 5 {
      PageSizeGrows(level, 5);
    }
  }

  method FindLevel(size: nat) returns (level: nat)
    ensures size <= SIZE_LIMIT_LARGE <==> level < PAGE_MAX_LEVELS
    ensures level < PAGE_MAX_LEVELS ==> size <= PageSize(level)
    ensures level < PAGE_MAX_LEVELS ==> forall lower: nat :: lower < level ==> PageSize(lower) < size
    ensures size > SIZE_LIMIT_LARGE ==> level == 0xFFFF
    ensures DivideSize(size) == LargeObject <==> 2048 <= size && size < PageSize(PAGE_MAX_LEVELS - 1)
  {
    PageSizeValues();
    var k := 0;
    var n := 1024 * Pow2(k + 2);
    while k < PAGE_MAX_LEVELS && n < size
      invariant k <= PAGE_MAX_LEVELS && n == PageSize(k)
      invariant forall lower: nat :: lower < k ==> PageSize(lower) < size
    {
      k := k + 1;
      n := 1024 * Pow2(k + 2);
    }
    level := if k < PAGE_MAX_LEVELS then k else NO_LEVEL;
  }

  method FindSlabLevel(size: nat) returns (level: nat)
    ensures size <= SIZE_LIMIT_SMALL / 2 <==> level < SLAB_MAX_LEVELS
    ensures level < SLAB_MAX_LEVELS ==> size <= SlabSize(level)
    ensures level < SLAB_MAX_LEVELS ==> forall lower: nat :: lower < level ==> SlabSize(lower) < size
    ensures size > SIZE_LIMIT_SMALL / 2 ==> level == 0xFFFF
    ensures DivideSize(size) == SmallObject <==> size < SlabSize(SLAB_MAX_LEVELS - 1)
    ensures 1 <= size <= 128 ==> SlabSize(level) - size < 8
    ensures 128 < size <= SIZE_LIMIT_SMALL / 2 ==> SlabSize(level) - size < 64
  {
    var k := 0;
    var n := SlabSize(k);
    while k < SLAB_MAX_LEVELS && n < size
      invariant k <= SLAB_MAX_LEVELS && n == SlabSize(k)
      invariant forall lower: nat :: lower < k ==> SlabSize(lower) < size
    {
      k := k + 1;
      n := SlabSize(k);
    }
    level := if k < SLAB_MAX_LEVELS then k else NO_LEVEL;
    assert 0 < k ==> SlabSize(k - 1) < size;
  }
}
