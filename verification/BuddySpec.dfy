// The page arena as a value, what each operation makes of it, and what every run keeps.
module BuddySpec {
  import opened SizeClasses
  import opened BuddyLayout

  const INVALID_MEM_ADDR: nat := 0xFFFF_FFFF
  const ERROR_ALLOC_OFFSET: nat := 0
  const DEFAULT_PAGE_MEM_SIZE: nat := 10 * 1024 * 1024
  // Table header (40 bytes), six page list heads of 8 bytes, forty-six slab records of 16 bytes.
  const HEADER_SIZE: nat := 40 + PAGE_MAX_LEVELS * 8 + SLAB_MAX_LEVELS * 16

  // `begin` is the arena's offset, `current` its bump cursor.
  datatype Arena = Arena(begin: nat, current: nat, free: Shelves, out: Stock) {
    function Lo(): nat { begin + HEADER_SIZE }
    function End(): nat { begin + DEFAULT_PAGE_MEM_SIZE }
  }

  lemma ArenaNumbers()
    ensures DEFAULT_PAGE_MEM_SIZE == 10 * 1024 * 1024 && INVALID_MEM_ADDR == 0xFFFF_FFFF && ERROR_ALLOC_OFFSET == 0
  {
  }

  ghost predicate Good(s: Arena) {
    && |s.free| == |s.out|
    && PAGE_MAX_LEVELS <= |s.free|
    && Tiles(Together(s.free, s.out), s.Lo(), s.current)
    && s.current <= s.End() < INVALID_MEM_ADDR
    && (s.current - s.Lo()) % PageSize(0) == 0
  }

  lemma OpenGood(s: Arena)
    requires Good(s)
    ensures PAGE_MAX_LEVELS <= |s.free| == |s.out| && s.current <= s.End()
    ensures Tiles(Together(s.free, s.out), s.Lo(), s.current)
  {
  }

  // ---------- merging a freed block upwards ----------

  predicate Neighbours(a: nat, b: nat, size: nat) {
    a + size == b || b + size == a
  }

  // Index of the first list element next to `head`, or the list's length.
  function FirstNeighbour(list: seq<nat>, head: nat, size: nat): (j: nat)
    ensures j <= |list|
    ensures j < |list| ==> Neighbours(list[j], head, size)
    ensures forall i :: 0 <= i < j ==> !Neighbours(list[i], head, size)
  {
    if list == [] || Neighbours(list[0], head, size) then 0
    else 1 + FirstNeighbour(list[1..], head, size)
  }

  function Min(a: nat, b: nat): nat { if a < b then a else b }

  // The merge climbs out of the table of list heads: it finds a neighbour on every level up to the last.
  predicate Escapes(free: Shelves, head: nat, level: nat)
    decreases |free| - level
  {
    if |free| <= level then true
    else
      var j := FirstNeighbour(free[level], head, PageSize(level));
      j < |free[level]| && Escapes(free, Min(head, free[level][j]), level + 1)
  }

  // Free lists after the block `head` of `level` came back.
  function Merged(free: Shelves, head: nat, level: nat): (after: Shelves)
    requires !Escapes(free, head, level)
    ensures |after| == |free|
    decreases |free| - level
  {
    var j := FirstNeighbour(free[level], head, PageSize(level));
    if j == |free[level]| then free[level := [head] + free[level]]
    else
      var rest := free[level := Without(free[level], j)];
      EscapeLooksUp(free, rest, Min(head, free[level][j]), level + 1);
      Merged(rest, Min(head, free[level][j]), level + 1)
  }

  // Whether a merge escapes depends only on the lists from its level up.
  lemma {:induction false} EscapeLooksUp(free: Shelves, other: Shelves, head: nat, level: nat)
    requires |free| == |other|
    requires forall l :: level <= l < |free| ==> free[l] == other[l]
    ensures Escapes(free, head, level) == Escapes(other, head, level)
    decreases |free| - level
  {
    if level < |free| {
      var j := FirstNeighbour(free[level], head, PageSize(level));
      if j < |free[level]| {
        EscapeLooksUp(free, other, Min(head, free[level][j]), level + 1);
      }
    }
  }

  // One step of a merge, in terms of the blocks held.
  lemma MergeStepHolds(free: Shelves, out: Stock, head: nat, level: nat, j: nat)
    requires |free| == |out|
    requires Has(out, level, head) && j < |free[level]|
    requires Neighbours(free[level][j], head, PageSize(level))
    ensures var low := Min(head, free[level][j]);
      && {low, low + PageSize(level)} == {head, free[level][j]}
      && Has(Together(free, out), level, low)
      && Has(Together(free, out), level, low + PageSize(level))
  {
    assert Has(Together(free, out), level, free[level][j]);
  }

  lemma MergeStep(free: Shelves, out: Stock, head: nat, level: nat, j: nat)
    requires |free| == |out| && level + 1 < |free|
    requires Has(out, level, head) && j < |free[level]|
    requires Neighbours(free[level][j], head, PageSize(level))
    ensures var low := Min(head, free[level][j]);
      Together(free[level := Without(free[level], j)], Put(Take(out, level, head), level + 1, low))
      == Joined(Together(free, out), level, low)
  {
    var b := free[level][j];
    var low := Min(head, b);
    var rest := free[level := Without(free[level], j)];
    RemoveIsTake(free, out, level, j);
    OutTake(rest, out, level, head);
    OutPut(rest, Take(out, level, head), level + 1, low);
    TakesCommute(Together(free, out), level, head, b);
    assert Together(rest, Put(Take(out, level, head), level + 1, low))
        == Put(Take(Take(Together(free, out), level, b), level, head), level + 1, low);
    JoinedEither(Together(free, out), level, head, b);
  }

  lemma JoinedEither(stock: Stock, l: nat, a: nat, b: nat)
    requires l + 1 < |stock| && Neighbours(a, b, PageSize(l))
    ensures Put(Take(Take(stock, l, b), l, a), l + 1, Min(a, b)) == Joined(stock, l, Min(a, b))
  {
    TakesCommute(stock, l, a, b);
  }

  lemma HandBack(free: Shelves, out: Stock, l: nat, a: nat)
    requires |free| == |out| && Has(out, l, a)
    ensures Together(free[l := [a] + free[l]], Take(out, l, a)) == Together(free, out)
  {
    PushIsPut(free, Take(out, l, a), l, a);
    OutPut(free, Take(out, l, a), l, a);
    OutTake(free, out, l, a);
  }

  // Giving a block back keeps the tiling and moves exactly that block from outstanding to free.
  lemma {:induction false} MergeKeepsTiling(free: Shelves, out: Stock, head: nat, level: nat, lo: nat, hi: nat)
    requires |free| == |out|
    requires !Escapes(free, head, level) && Has(out, level, head)
    requires Tiles(Together(free, out), lo, hi)
    ensures Tiles(Together(Merged(free, head, level), Take(out, level, head)), lo, hi)
    decreases |free| - level
  {
    hide Tiles, PageSize, Without, Joined;
    var j := FirstNeighbour(free[level], head, PageSize(level));
    if j == |free[level]| {
      HandBack(free, out, level, head);
    } else {
      var low := Min(head, free[level][j]);
      var rest := free[level := Without(free[level], j)];
      EscapeLooksUp(free, rest, low, level + 1);
      var out' := Put(Take(out, level, head), level + 1, low);
      MergeStep(free, out, head, level, j);
      MergeStepHolds(free, out, head, level, j);
      JoinKeepsTiling(Together(free, out), level, low, lo, hi);
      MergeKeepsTiling(rest, out', low, level + 1, lo, hi);
      PutThenTake(Take(out, level, head), level + 1, low);
    }
  }

  // A merge can only escape through a non-empty list on every level from its own up.
  lemma {:induction false} EscapeNeedsEveryLevel(free: Shelves, head: nat, level: nat, l: nat)
    requires Escapes(free, head, level) && level <= l < |free|
    ensures free[l] != []
    decreases |free| - level
  {
    if level < l {
      var j := FirstNeighbour(free[level], head, PageSize(level));
      EscapeNeedsEveryLevel(free, Min(head, free[level][j]), level + 1, l);
    }
  }

  lemma LevelsInArena(level: nat)
    ensures PageSize(level) < DEFAULT_PAGE_MEM_SIZE ==> level <= 11
    ensures 2 * PageSize(level) < DEFAULT_PAGE_MEM_SIZE ==> level <= 10
  {
    PageSizeValues();
    PageSizeDoubles(11);
    if 11 < level {
      PageSizeGrows(11, level);
    }
  }

  // With heads for twelve levels no merge can escape: two blocks of level 11 do not fit the arena.
  lemma {:induction false} TwelveLevelsSuffice(free: Shelves, out: Stock, head: nat, level: nat, lo: nat, hi: nat)
    requires |free| == |out| && 12 <= |free|
    requires Has(out, level, head)
    requires Tiles(Together(free, out), lo, hi) && hi - lo < DEFAULT_PAGE_MEM_SIZE
    ensures level <= 11 && !Escapes(free, head, level)
    decreases |free| - level
  {
    LevelsInArena(level);
    assert Has(Together(free, out), level, head);
    var j := FirstNeighbour(free[level], head, PageSize(level));
    if j < |free[level]| {
      MergeStepHolds(free, out, head, level, j);
      var low := Min(head, free[level][j]);
      assert Apart(level, low, level, low + PageSize(level));
      MergeStepTiles(free, out, head, level, j, lo, hi);
      var rest := free[level := Without(free[level], j)];
      EscapeLooksUp(free, rest, low, level + 1);
      TwelveLevelsSuffice(rest, Put(Take(out, level, head), level + 1, low), low, level + 1, lo, hi);
    }
  }

  lemma MergeStepTiles(free: Shelves, out: Stock, head: nat, level: nat, j: nat, lo: nat, hi: nat)
    requires |free| == |out| && level + 1 < |free|
    requires Has(out, level, head) && j < |free[level]|
    requires Neighbours(free[level][j], head, PageSize(level))
    requires Tiles(Together(free, out), lo, hi)
    ensures var low := Min(head, free[level][j]);
      Tiles(Together(free[level := Without(free[level], j)], Put(Take(out, level, head), level + 1, low)), lo, hi)
  {
    MergeStep(free, out, head, level, j);
    MergeStepHolds(free, out, head, level, j);
    JoinKeepsTiling(Together(free, out), level, Min(head, free[level][j]), lo, hi);
  }

  // ---------- splitting ----------

  // The least level above `level` that has a free block, or PAGE_MAX_LEVELS.
  function FirstAbove(free: Shelves, level: nat): (i: nat)
    requires PAGE_MAX_LEVELS <= |free|
    ensures i < PAGE_MAX_LEVELS ==> level < i && free[i] != []
    ensures forall l :: level < l < i && l < PAGE_MAX_LEVELS ==> free[l] == []
    ensures i <= PAGE_MAX_LEVELS || i == level + 1
    decreases PAGE_MAX_LEVELS - level
  {
    if PAGE_MAX_LEVELS <= level + 1 then level + 1
    else if free[level + 1] != [] then level + 1
    else FirstAbove(free, level + 1)
  }

  // Free lists after the first block of list i was cut down to `level`: its upper halves go to the lists between.
  function CutDown(free: Shelves, level: nat, i: nat): (after: Shelves)
    requires level <= i < |free| && free[i] != []
    ensures |after| == |free|
  {
    var block := free[i][0];
    seq(|free|, l requires 0 <= l < |free| =>
      if l == i then free[i][1..]
      else if level <= l < i then [block + PageSize(l)] + free[l]
      else free[l])
  }

  // Cutting a block down and handing its lowest part out keeps the tiling.
  lemma {:induction false} CutKeepsTiling(free: Shelves, out: Stock, level: nat, i: nat, lo: nat, hi: nat)
    requires |free| == |out| && level <= i < |free| && free[i] != []
    requires Tiles(Together(free, out), lo, hi)
    ensures Tiles(Together(CutDown(free, level, i), Put(out, level, free[i][0])), lo, hi)
    decreases i - level
  {
    var block := free[i][0];
    if level == i {
      CutNothing(free, out, i);
    } else {
      CutKeepsTiling(free, out, level + 1, i, lo, hi);
      CutStep(free, out, level, i);
      HalveHeld(CutDown(free, level + 1, i), out, level, block, lo, hi);
    }
  }

  lemma HalveHeld(free: Shelves, out: Stock, level: nat, block: nat, lo: nat, hi: nat)
    requires |free| == |out| && level + 1 < |free|
    requires Tiles(Together(free, Put(out, level + 1, block)), lo, hi)
    ensures Tiles(Halved(Together(free, Put(out, level + 1, block)), level, block), lo, hi)
  {
    assert Has(Together(free, Put(out, level + 1, block)), level + 1, block);
    HalveKeepsTiling(Together(free, Put(out, level + 1, block)), level, block, lo, hi);
  }

  lemma CutNothing(free: Shelves, out: Stock, i: nat)
    requires |free| == |out| && i < |free| && free[i] != []
    ensures Together(CutDown(free, i, i), Put(out, i, free[i][0])) == Together(free, out)
  {
    var block := free[i][0];
    var rest := free[i := Without(free[i], 0)];
    assert free[i][1..] == Without(free[i], 0);
    assert CutDown(free, i, i) == rest;
    assert free[i] == [block] + rest[i];
    assert free == rest[i := [block] + rest[i]];
    PushIsPut(rest, out, i, block);
    OutPut(rest, out, i, block);
  }

  lemma CutOnce(free: Shelves, level: nat, i: nat)
    requires level < i < |free| && free[i] != []
    ensures var less := CutDown(free, level + 1, i);
      CutDown(free, level, i) == less[level := [free[i][0] + PageSize(level)] + less[level]]
  {
    var less := CutDown(free, level + 1, i);
    var cut := CutDown(free, level, i);
    assert cut[level] == [free[i][0] + PageSize(level)] + less[level];
    assert forall l :: 0 <= l < |free| && l != level ==> cut[l] == less[l];
  }

  lemma HalveOut(free: Shelves, out: Stock, level: nat, block: nat)
    requires |free| == |out| && level + 1 < |free|
    ensures Together(free[level := [block + PageSize(level)] + free[level]], Put(out, level, block))
      == Halved(Together(free, Put(out, level + 1, block)), level, block)
  {
    PushIsPut(free, Put(out, level, block), level, block + PageSize(level));
    OutPut(free, out, level, block);
    OutPut(free, out, level + 1, block);
    PutThenTake(Together(free, out), level + 1, block);
  }

  lemma CutStep(free: Shelves, out: Stock, level: nat, i: nat)
    requires |free| == |out| && level < i < |free| && free[i] != []
    ensures Together(CutDown(free, level, i), Put(out, level, free[i][0]))
      == Halved(Together(CutDown(free, level + 1, i), Put(out, level + 1, free[i][0])), level, free[i][0])
  {
    CutOnce(free, level, i);
    HalveOut(CutDown(free, level + 1, i), out, level, free[i][0]);
  }

  // ---------- extending ----------

  // The arena after the bump cursor supplied one block for each of the first k levels.
  function Extended(s: Arena, k: nat): Arena
    requires k <= |s.free|
  {
    s.(free := seq(|s.free|, l requires 0 <= l < |s.free| =>
                     if l < k then [s.current + PageSize(l) - PageSize(0)] + s.free[l] else s.free[l]),
       current := s.current + PageSize(k) - PageSize(0))
  }

  // How many of the levels below PAGE_MAX_LEVELS, starting from the first, still fit behind the cursor.
  function Fitting(s: Arena, k: nat): (n: nat)
    requires k <= PAGE_MAX_LEVELS && s.current + PageSize(k) - PageSize(0) <= s.End()
    ensures k <= n <= PAGE_MAX_LEVELS
    ensures s.current + PageSize(n) - PageSize(0) <= s.End()
    ensures n < PAGE_MAX_LEVELS ==> s.End() < s.current + PageSize(n + 1) - PageSize(0)
    decreases PAGE_MAX_LEVELS - k
  {
    if k == PAGE_MAX_LEVELS || s.End() < s.current + PageSize(k + 1) - PageSize(0) then k
    else Fitting(s, k + 1)
  }

  // The cursor can supply the block of level k exactly while k is below the number of levels that fit.
  lemma FitsIff(s: Arena, k: nat)
    requires s.current <= s.End() && k < PAGE_MAX_LEVELS
    ensures s.current + PageSize(k + 1) - PageSize(0) <= s.End() <==> k < Fitting(s, 0)
  {
    hide PageSize;
    var n := Fitting(s, 0);
    if k + 1 < n {
      PageSizeGrows(k + 1, n);
    } else if n < k {
      PageSizeGrows(n + 1, k + 1);
    }
  }

  lemma {:induction false} ExtendKeepsTiling(s: Arena, k: nat)
    requires |s.free| == |s.out| && k <= |s.free|
    requires Tiles(Together(s.free, s.out), s.Lo(), s.current)
    ensures Tiles(Together(Extended(s, k).free, s.out), s.Lo(), Extended(s, k).current)
  {
    if k == 0 {
      assert Extended(s, k).free == s.free;
    } else {
      ExtendKeepsTiling(s, k - 1);
      ExtendOnce(s, k - 1);
      var before := Extended(s, k - 1);
      GrowKeepsTiling(Together(before.free, s.out), k - 1, s.Lo(), before.current);
      PushIsPut(before.free, s.out, k - 1, before.current);
    }
  }

  lemma ExtendOnce(s: Arena, k: nat)
    requires k < |s.free|
    ensures var before := Extended(s, k);
      Extended(s, k + 1) ==
        before.(free := before.free[k := [before.current] + before.free[k]], current := before.current + PageSize(k))
  {
    PageSizeDoubles(k);
    var before, after := Extended(s, k), Extended(s, k + 1);
    assert after.free[k] == [before.current] + before.free[k];
    assert forall l :: 0 <= l < |s.free| && l != k ==> after.free[l] == before.free[l];
    assert after.free == before.free[k := [before.current] + before.free[k]];
  }

  // ---------- runs ----------

  datatype Op =
    | ExtendPages
    | UnitBlock
    | SplitBlock(level: nat)
    | FreeBlock(level: nat, a: nat)

  // A block of `level` cut from the first higher level that has one, if any.
  function Split(s: Arena, level: nat): Arena
    requires PAGE_MAX_LEVELS <= |s.free| == |s.out|
  {
    var i := FirstAbove(s.free, level);
    if i < PAGE_MAX_LEVELS
    then s.(free := CutDown(s.free, level, i), out := Put(s.out, level, s.free[i][0]))
    else s
  }

  function Unit(s: Arena): Arena
    requires PAGE_MAX_LEVELS <= |s.free| == |s.out|
  {
    if s.free[0] != []
    then s.(free := CutDown(s.free, 0, 0), out := Put(s.out, 0, s.free[0][0]))
    else Split(s, 0)
  }

  // The address each of the two hands out, or the error offset.
  function SplitAddress(s: Arena, level: nat): nat
    requires PAGE_MAX_LEVELS <= |s.free|
  {
    var i := FirstAbove(s.free, level);
    if i < PAGE_MAX_LEVELS then s.free[i][0] else ERROR_ALLOC_OFFSET
  }

  function UnitAddress(s: Arena): nat
    requires PAGE_MAX_LEVELS <= |s.free|
  {
    if s.free[0] != [] then s.free[0][0] else SplitAddress(s, 0)
  }

  lemma SplitIs(s: Arena, level: nat, i: nat)
    requires PAGE_MAX_LEVELS <= |s.free| == |s.out| && level < i
    requires forall l :: level < l < i && l < PAGE_MAX_LEVELS ==> s.free[l] == []
    ensures i < PAGE_MAX_LEVELS && s.free[i] != [] ==>
      && Split(s, level) == s.(free := CutDown(s.free, level, i), out := Put(s.out, level, s.free[i][0]))
      && SplitAddress(s, level) == s.free[i][0]
    ensures PAGE_MAX_LEVELS <= i ==> Split(s, level) == s && SplitAddress(s, level) == ERROR_ALLOC_OFFSET
  {
  }

  lemma UnitIs(s: Arena)
    requires PAGE_MAX_LEVELS <= |s.free| == |s.out|
    ensures s.free[0] == [] ==> Unit(s) == Split(s, 0) && UnitAddress(s) == SplitAddress(s, 0)
    ensures s.free[0] != [] ==>
      && Unit(s) == s.(free := CutDown(s.free, 0, 0), out := Put(s.out, 0, s.free[0][0]))
      && UnitAddress(s) == s.free[0][0]
  {
  }

  function Extend(s: Arena): Arena
    requires PAGE_MAX_LEVELS <= |s.free| && s.current <= s.End()
  {
    Extended(s, Fitting(s, 0))
  }

  function Release(s: Arena, level: nat, a: nat): Arena
    requires |s.free| == |s.out| && level < |s.free| && !Escapes(s.free, a, level)
  {
    s.(free := Merged(s.free, a, level), out := Take(s.out, level, a))
  }

  // Clients give back only what they hold, at the level they got it.
  ghost predicate Allowed(s: Arena, op: Op) {
    op.FreeBlock? ==> Has(s.out, op.level, op.a)
  }

  predicate Overruns(s: Arena, op: Op) {
    op.FreeBlock? && Escapes(s.free, op.a, op.level)
  }

  ghost function Step(s: Arena, op: Op): Arena
    requires Good(s) && Allowed(s, op) && !Overruns(s, op)
  {
    match op
    case ExtendPages => Extend(s)
    case UnitBlock => Unit(s)
    case SplitBlock(level) => Split(s, level)
    case FreeBlock(level, a) => Release(s, level, a)
  }

  // The arena with its header reserved and no block yet, and after one block per level was added to it,
  // over a table of `slots` list heads.
  function Blank(begin: nat, slots: nat): Arena {
    Arena(begin, begin + HEADER_SIZE, seq(slots, _ => []), Nothing(slots))
  }

  function Initial(begin: nat, slots: nat): Arena
    requires PAGE_MAX_LEVELS <= slots
  {
    Extended(Blank(begin, slots), PAGE_MAX_LEVELS)
  }

  lemma BlankTiles(begin: nat, slots: nat)
    ensures var s := Blank(begin, slots); Tiles(Together(s.free, s.out), s.Lo(), s.current)
  {
    var s := Blank(begin, slots);
    var nil: seq<nat> := [];
    NothingTiles(slots, s.Lo());
    assert multiset(nil) + multiset{} == multiset{};
    assert forall l :: 0 <= l < slots ==> Together(s.free, s.out)[l] == Nothing(slots)[l];
    assert Together(s.free, s.out) == Nothing(slots);
  }

  lemma ExtendedLength(s: Arena, k: nat)
    requires |s.free| == |s.out| && k <= |s.free|
    requires (s.current - s.Lo()) % PageSize(0) == 0
    ensures (Extended(s, k).current - s.Lo()) % PageSize(0) == 0
  {
    PagesDivide(k);
    var m, n := (s.current - s.Lo()) / PageSize(0), PageSize(k) / PageSize(0);
    assert Extended(s, k).current - s.Lo() == PageSize(0) * (m + n - 1);
  }

  lemma PagesDivide(k: nat)
    ensures PageSize(k) % PageSize(0) == 0
  {
    if k != 0 {
      PagesDivide(k - 1);
      PageSizeDoubles(k - 1);
    }
  }

  lemma SixLevelsFill()
    ensures PageSize(6) - PageSize(0) == 63 * 4096
  {
    PageSizeValues();
    PageSizeDoubles(5);
  }

  lemma BlankFits(begin: nat, slots: nat)
    requires PAGE_MAX_LEVELS <= slots
    ensures Fitting(Blank(begin, slots), 0) == PAGE_MAX_LEVELS
  {
    SixLevelsFill();
    FitsIff(Blank(begin, slots), 5);
  }

  lemma InitialIsGood(begin: nat, slots: nat)
    requires PAGE_MAX_LEVELS <= slots
    requires begin + DEFAULT_PAGE_MEM_SIZE < INVALID_MEM_ADDR
    ensures Good(Initial(begin, slots))
  {
    hide Tiles, PageSize, Together;
    var blank := Blank(begin, slots);
    BlankTiles(begin, slots);
    ExtendKeepsTiling(blank, PAGE_MAX_LEVELS);
    ExtendedLength(blank, PAGE_MAX_LEVELS);
    SixLevelsFill();
  }

  lemma StepKeepsGood(s: Arena, op: Op)
    requires Good(s) && Allowed(s, op) && !Overruns(s, op)
    ensures Good(Step(s, op))
    ensures |Step(s, op).free| == |s.free| && Step(s, op).begin == s.begin
  {
    hide Tiles, PageSize, CutDown, Escapes;
    match op
    case ExtendPages =>
      var n := Fitting(s, 0);
      ExtendKeepsTiling(s, n);
      ExtendedLength(s, n);
    case UnitBlock =>
      if s.free[0] != [] {
        CutIsGood(s, 0, 0);
      } else {
        SplitKeepsGood(s, 0);
      }
    case SplitBlock(level) =>
      SplitKeepsGood(s, level);
    case FreeBlock(level, a) =>
      MergeKeepsTiling(s.free, s.out, a, level, s.Lo(), s.current);
  }

  lemma CutIsGood(s: Arena, level: nat, i: nat)
    requires Good(s) && level <= i < |s.free| && s.free[i] != []
    ensures var after := s.(free := CutDown(s.free, level, i), out := Put(s.out, level, s.free[i][0]));
      Good(after) && after.End() == s.End() && |after.free| == |s.free|
  {
    CutKeepsTiling(s.free, s.out, level, i, s.Lo(), s.current);
  }

  lemma SplitKeepsGood(s: Arena, level: nat)
    requires Good(s)
    ensures Good(Split(s, level))
  {
    var i := FirstAbove(s.free, level);
    if i < PAGE_MAX_LEVELS {
      CutIsGood(s, level, i);
    }
  }

  // A run is a sequence of operations, each allowed where it happens and none of them climbing out of the table.
  ghost predicate Runs(s: Arena, ops: seq<Op>)
    requires Good(s)
    decreases |ops|
  {
    ops == [] || (
      && Allowed(s, ops[0])
      && !Overruns(s, ops[0])
      && (StepKeepsGood(s, ops[0]); Runs(Step(s, ops[0]), ops[1..])))
  }

  ghost function After(s: Arena, ops: seq<Op>): Arena
    requires Good(s) && Runs(s, ops)
    decreases |ops|
  {
    if ops == [] then s else StepKeepsGood(s, ops[0]); After(Step(s, ops[0]), ops[1..])
  }

  // Every run keeps free and outstanding blocks tiling the space between header and cursor.
  lemma {:induction false} RunKeepsGood(s: Arena, ops: seq<Op>)
    requires Good(s) && Runs(s, ops)
    ensures Good(After(s, ops)) && After(s, ops).begin == s.begin
    ensures |After(s, ops).free| == |s.free|
    decreases |ops|
  {
    if ops != [] {
      StepKeepsGood(s, ops[0]);
      RunKeepsGood(Step(s, ops[0]), ops[1..]);
    }
  }

  ghost function Start(begin: nat, slots: nat): (s: Arena)
    requires PAGE_MAX_LEVELS <= slots && begin + DEFAULT_PAGE_MEM_SIZE < INVALID_MEM_ADDR
    ensures Good(s)
  {
    InitialIsGood(begin, slots);
    Initial(begin, slots)
  }

  // The allocator's main promise, for every run from initialisation.
  lemma RunFromInit(begin: nat, slots: nat, ops: seq<Op>)
    requires PAGE_MAX_LEVELS <= slots && begin + DEFAULT_PAGE_MEM_SIZE < INVALID_MEM_ADDR
    requires Runs(Start(begin, slots), ops)
    ensures var s := After(Start(begin, slots), ops);
      && |s.free| == |s.out|
      && s.current <= begin + DEFAULT_PAGE_MEM_SIZE
      && Tiles(Together(s.free, s.out), begin + HEADER_SIZE, s.current)
  {
    RunKeepsGood(Start(begin, slots), ops);
  }

  // With twelve list heads no operation of any run climbs out of the table.
  lemma TwelveLevelsNeverOverrun(s: Arena, op: Op)
    requires Good(s) && Allowed(s, op) && 12 <= |s.free|
    ensures !Overruns(s, op)
  {
    if op.FreeBlock? {
      TwelveLevelsSuffice(s.free, s.out, op.a, op.level, s.Lo(), s.current);
    }
  }

  // The membership test that routes a freed block to its table.
  predicate BelongToTable(s: Arena, offset: nat, size: nat) {
    s.begin < offset < s.End() && offset + size < s.End()
  }

  // Every outstanding block passes the strict membership test: the cursor never reaches the arena's end.
  lemma OutstandingBelongs(s: Arena, level: nat, a: nat)
    requires Good(s) && Has(s.out, level, a)
    ensures BelongToTable(s, a, PageSize(level))
  {
    assert Has(Together(s.free, s.out), level, a);
    PageSizeValues();
    assert (s.End() - s.Lo()) % PageSize(0) == PageSize(0) - HEADER_SIZE;
  }

  // A split fails exactly when no higher level has a free block, and then changes nothing; otherwise it hands
  // out one block of the level asked for.
  lemma SplitHandsOut(s: Arena, level: nat)
    requires Good(s)
    ensures SplitAddress(s, level) == 0 <==>
            forall l: nat :: level < l < PAGE_MAX_LEVELS ==> s.free[l] == []
    ensures SplitAddress(s, level) == ERROR_ALLOC_OFFSET ==> Split(s, level) == s
    ensures SplitAddress(s, level) != ERROR_ALLOC_OFFSET ==>
      && level < |s.out|
      && Split(s, level).out == Put(s.out, level, SplitAddress(s, level))
      && !Has(s.out, level, SplitAddress(s, level))
  {
    var i := FirstAbove(s.free, level);
    if i < PAGE_MAX_LEVELS {
      HandedOnce(s, level, i);
    }
  }

  lemma HandedOnce(s: Arena, level: nat, i: nat)
    requires Good(s) && level <= i < |s.free| && s.free[i] != []
    ensures !Has(s.out, level, s.free[i][0]) && s.free[i][0] != ERROR_ALLOC_OFFSET
  {
    var block := s.free[i][0];
    var stock := Together(s.free, s.out);
    assert Has(stock, i, block);
    CutIsGood(s, level, i);
    assert Has(Put(s.out, level, block), level, block);
    assert Together(CutDown(s.free, level, i), Put(s.out, level, block))[level][block] == 1;
  }

  // A unit request fails exactly when every list is empty; otherwise one unforeseen block goes out at level 0.
  lemma UnitHandsOut(s: Arena)
    requires Good(s)
    ensures UnitAddress(s) == 0 <==> forall l: nat :: l < PAGE_MAX_LEVELS ==> s.free[l] == []
    ensures UnitAddress(s) == ERROR_ALLOC_OFFSET ==> Unit(s) == s
    ensures UnitAddress(s) != ERROR_ALLOC_OFFSET ==>
      Unit(s).out == Put(s.out, 0, UnitAddress(s)) && !Has(s.out, 0, UnitAddress(s))
  {
    if s.free[0] != [] {
      HandedOnce(s, 0, 0);
    } else {
      SplitHandsOut(s, 0);
    }
  }
}
