// A run from initialisation after which giving back one page climbs out of the six-entry table of list heads.
module BuddyOverrun {
  import opened SizeClasses
  import opened BuddyLayout
  import opened BuddySpec

  const PAGE: nat := 4096

  // The first block of the highest level is cut up from its low end until its last page is handed out; then one
  // more block per level is added, the first of them next to that page.
  function Prelude(): seq<Op> {
    [SplitBlock(4), SplitBlock(3), SplitBlock(2), SplitBlock(1), SplitBlock(0), UnitBlock, ExtendPages]
  }

  function LastPage(begin: nat): nat {
    begin + HEADER_SIZE + 62 * PAGE
  }

  // The free lists before step k, in pages from the first one.
  function PagesBefore(k: nat): (lists: seq<seq<nat>>)
    requires k <= 7
    ensures |lists| == PAGE_MAX_LEVELS
  {
    if k == 0 then [[0], [1], [3], [7], [15], [31]]
    else if k == 1 then [[0], [1], [3], [7], [47, 15], []]
    else if k == 2 then [[0], [1], [3], [55, 7], [15], []]
    else if k == 3 then [[0], [1], [59, 3], [7], [15], []]
    else if k == 4 then [[0], [61, 1], [3], [7], [15], []]
    else if k == 5 then [[62, 0], [1], [3], [7], [15], []]
    else if k == 6 then [[0], [1], [3], [7], [15], []]
    else [[63, 0], [64, 1], [66, 3], [70, 7], [78, 15], [94]]
  }

  function Addresses(lo: nat, list: seq<nat>): (a: seq<nat>)
    ensures |a| == |list| && forall i :: 0 <= i < |list| ==> a[i] == lo + list[i] * PAGE
  {
    seq(|list|, i requires 0 <= i < |list| => lo + list[i] * PAGE)
  }

  function Lists(lo: nat, pages: seq<seq<nat>>): (free: Shelves)
    ensures |free| == |pages| && forall l :: 0 <= l < |pages| ==> free[l] == Addresses(lo, pages[l])
  {
    seq(|pages|, l requires 0 <= l < |pages| => Addresses(lo, pages[l]))
  }

  ghost predicate Stage(s: Arena, begin: nat, k: nat)
    requires k <= 7
  {
    && Good(s) && s.begin == begin
    && s.free == Lists(begin + HEADER_SIZE, PagesBefore(k))
    && s.current == begin + HEADER_SIZE + (if k == 7 then 126 else 63) * PAGE
    && (6 <= k ==> Has(s.out, 0, LastPage(begin)))
  }

  lemma Sizes()
    ensures PageSize(0) == PAGE && PageSize(1) == 2 * PAGE && PageSize(2) == 4 * PAGE && PageSize(3) == 8 * PAGE
    ensures PageSize(4) == 16 * PAGE && PageSize(5) == 32 * PAGE && PageSize(6) == 64 * PAGE
  {
    PageSizeValues();
    PageSizeDoubles(5);
  }

  lemma StartStage(begin: nat)
    requires begin + DEFAULT_PAGE_MEM_SIZE < INVALID_MEM_ADDR
    ensures Stage(Start(begin, 6), begin, 0)
  {
    hide Good, PageSize;
    Sizes();
    var lo := begin + HEADER_SIZE;
    var s := Start(begin, 6);
    forall l | 0 <= l < 6
      ensures s.free[l] == Lists(lo, PagesBefore(0))[l]
    {
      assert s.free[l] == [lo + PageSize(l) - PageSize(0)];
    }
  }

  // Cutting the first block of list k's next level: the one half goes out, the other on the list.
  lemma CutStage(s: Arena, begin: nat, k: nat)
    requires k < 5 && Stage(s, begin, k)
    ensures Stage(Split(s, 4 - k), begin, k + 1)
  {
    hide Good, PageSize, Tiles, Together, CutDown, FirstAbove, Lists, PagesBefore;
    Sizes();
    OpenGood(s);
    SplitKeepsGood(s, 4 - k);
    var lo := begin + HEADER_SIZE;
    assert s.free[5 - k] == Addresses(lo, PagesBefore(k)[5 - k]);
    SplitIs(s, 4 - k, 5 - k);
    CutLists(lo, k);
  }

  // In pages: the first block of a list goes, its upper half comes to the list below, the others stay.
  lemma PagesStep(k: nat)
    requires k < 5
    ensures var f, g := PagesBefore(k), PagesBefore(k + 1);
      && f[5 - k] != [] && g[5 - k] == f[5 - k][1..]
      && g[4 - k] == [f[5 - k][0] + PageSize(4 - k) / PAGE] + f[4 - k]
      && forall l :: 0 <= l < 6 && l != 5 - k && l != 4 - k ==> g[l] == f[l]
    ensures PageSize(4 - k) == PageSize(4 - k) / PAGE * PAGE
  {
    hide PageSize;
    Sizes();
  }

  lemma CutLists(lo: nat, k: nat)
    requires k < 5
    ensures Lists(lo, PagesBefore(k))[5 - k] != []
    ensures CutDown(Lists(lo, PagesBefore(k)), 4 - k, 5 - k) == Lists(lo, PagesBefore(k + 1))
  {
    hide PageSize, PagesBefore, Addresses, Lists;
    PagesStep(k);
    var free := Lists(lo, PagesBefore(k));
    var after := CutDown(free, 4 - k, 5 - k);
    forall l | 0 <= l < 6
      ensures after[l] == Lists(lo, PagesBefore(k + 1))[l]
    {
      assert free[l] == Addresses(lo, PagesBefore(k)[l]);
    }
  }

  lemma UnitStage(s: Arena, begin: nat)
    requires Stage(s, begin, 5)
    ensures Stage(Unit(s), begin, 6)
  {
    hide Good, PageSize, Tiles;
    Sizes();
    StepKeepsGoodUnit(s);
    var lo := begin + HEADER_SIZE;
    UnitIs(s);
    assert s.free[0] == Addresses(lo, [62, 0]);
    var after := CutDown(s.free, 0, 0);
    forall l | 0 <= l < 6
      ensures after[l] == Lists(lo, PagesBefore(6))[l]
    {
      assert s.free[l] == Addresses(lo, PagesBefore(5)[l]);
    }
  }

  lemma StepKeepsGoodUnit(s: Arena)
    requires Good(s)
    ensures Good(Unit(s)) && |s.out| == |s.free|
  {
    StepKeepsGood(s, UnitBlock);
  }

  lemma ExtendStage(s: Arena, begin: nat)
    requires Stage(s, begin, 6)
    ensures Stage(Extend(s), begin, 7)
  {
    hide Good, PageSize, Tiles, Together, Fitting, Extended, PagesBefore, Lists;
    Sizes();
    OpenGood(s);
    StepKeepsGoodExtend(s);
    FitsIff(s, 5);
    ExtendLists(s, begin + HEADER_SIZE);
  }

  // In pages: each list gets the block that ends where the next level's begins.
  lemma PagesExtend(l: nat)
    requires l < 6
    ensures PagesBefore(7)[l] == [62 + PageSize(l) / PAGE] + PagesBefore(6)[l]
    ensures PageSize(l) == PageSize(l) / PAGE * PAGE
  {
    hide PageSize;
    Sizes();
  }

  lemma ExtendLists(s: Arena, lo: nat)
    requires s.free == Lists(lo, PagesBefore(6)) && s.current == lo + 63 * PAGE
    ensures var t := Extended(s, 6);
      && t.free == Lists(lo, PagesBefore(7)) && t.current == lo + 126 * PAGE
      && t.begin == s.begin && t.out == s.out
  {
    hide PageSize, PagesBefore, Addresses, Lists;
    Sizes();
    forall l | 0 <= l < 6
      ensures Extended(s, 6).free[l] == Lists(lo, PagesBefore(7))[l]
    {
      PagesExtend(l);
      assert s.free[l] == Addresses(lo, PagesBefore(6)[l]);
    }
  }

  lemma StepKeepsGoodExtend(s: Arena)
    requires Good(s)
    ensures s.current <= s.End() && Good(Extend(s)) && PAGE_MAX_LEVELS <= |s.free|
  {
    StepKeepsGood(s, ExtendPages);
  }

  // Giving the page back merges it with its neighbour on every level.
  lemma StageOverruns(s: Arena, begin: nat)
    requires Stage(s, begin, 7)
    ensures Allowed(s, FreeBlock(0, LastPage(begin))) && Overruns(s, FreeBlock(0, LastPage(begin)))
  {
    hide Good, PageSize, Tiles;
    Sizes();
    var lo, a := begin + HEADER_SIZE, LastPage(begin);
    for l := 6 downto 0
      invariant Escapes(s.free, a, l)
    {
      assert s.free[l] == Addresses(lo, PagesBefore(7)[l]);
      assert s.free[l][0] == lo + PagesBefore(7)[l][0] * PAGE;
      assert Neighbours(s.free[l][0], a, PageSize(l));
      assert FirstNeighbour(s.free[l], a, PageSize(l)) == 0;
    }
  }

  // With six list heads a run of allocations, one extension and one free, all of them legal, climbs past the last.
  lemma SixLevelsOverrun(begin: nat)
    requires begin + DEFAULT_PAGE_MEM_SIZE < INVALID_MEM_ADDR
    ensures Runs(Start(begin, 6), Prelude())
    ensures var s := After(Start(begin, 6), Prelude()); var free := FreeBlock(0, LastPage(begin));
      Allowed(s, free) && Overruns(s, free)
  {
    hide Stage, Good, Split, Unit, Extend, Allowed, Escapes, HEADER_SIZE;
    var s := Start(begin, 6);
    StartStage(begin);
    StagesRun(s, begin, 0);
    StageOverruns(After(s, Prelude()), begin);
  }

  // From any stage on the rest of the run goes through the remaining ones.
  lemma {:induction false} StagesRun(s: Arena, begin: nat, k: nat)
    requires k <= 7 && Stage(s, begin, k)
    ensures Good(s) && Runs(s, Prelude()[k..]) && Stage(After(s, Prelude()[k..]), begin, 7)
    decreases 7 - k
  {
    hide Split, Unit, Extend, Tiles, PagesBefore;
    if k < 7 {
      var op := Prelude()[k];
      StepKeepsGood(s, op);
      if k < 5 {
        CutStage(s, begin, k);
      }
      if k == 5 {
        UnitStage(s, begin);
      }
      if k == 6 {
        ExtendStage(s, begin);
      }
      StagesRun(Step(s, op), begin, k + 1);
      assert Prelude()[k..] == [op] + Prelude()[k + 1..];
    }
  }
}
