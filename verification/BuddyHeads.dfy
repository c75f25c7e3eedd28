// How many list heads the arena needs: with twelve no run climbs past the table, with fewer some run does.
module BuddyHeads {
  import opened Bits
  import opened SizeClasses
  import opened BuddyLayout
  import opened BuddySpec

  // No operation allowed in this state climbs out of the table.
  ghost predicate Contained(s: Arena) {
    forall op: Op :: Allowed(s, op) ==> !Overruns(s, op)
  }

  ghost predicate NeverOverruns(s: Arena)
    requires Good(s)
  {
    forall ops: seq<Op> :: Runs(s, ops) ==> Contained(After(s, ops))
  }

  // Some run leads to an allowed operation that climbs out of the table.
  lemma {:induction false} EarlierOverruns(s: Arena, op: Op)
    requires Good(s) && Allowed(s, op) && !Overruns(s, op)
    requires Good(Step(s, op)) && !NeverOverruns(Step(s, op))
    ensures !NeverOverruns(s)
  {
    var t := Step(s, op);
    var ops: seq<Op> :| Runs(t, ops) && !Contained(After(t, ops));
    var all := [op] + ops;
    assert all[0] == op && all[1..] == ops;
    assert Runs(s, all) && After(s, all) == After(t, ops);
  }

  lemma OverrunsNow(s: Arena, op: Op)
    requires Good(s) && Allowed(s, op) && Overruns(s, op)
    ensures !NeverOverruns(s)
  {
    var none: seq<Op> := [];
    assert Runs(s, none) && After(s, none) == s;
  }

  // ---------- giving pages back from the lowest one up: the lists count in binary ----------

  // From level l on the lists stand for the number q: list l holds one block, right behind the larger ones, exactly
  // when q is odd, and the lists above stand for half of q.
  ghost predicate Counting(free: Shelves, lo: nat, l: nat, q: nat)
    decreases |free| - l
  {
    if |free| <= l then q == 0
    else
      && free[l] == (if q % 2 == 1 then [lo + PageSize(l) * (q - 1)] else [])
      && Counting(free, lo, l + 1, q / 2)
  }

  lemma {:induction false} CountingLooksUp(free: Shelves, other: Shelves, lo: nat, l: nat, q: nat)
    requires |free| == |other| && Counting(free, lo, l, q)
    requires forall m :: l <= m < |free| ==> free[m] == other[m]
    ensures Counting(other, lo, l, q)
    decreases |free| - l
  {
    if l < |free| {
      CountingLooksUp(free, other, lo, l + 1, q / 2);
    }
  }

  // The block that ends an odd number's part and the one that follows it merge into the block of half the number.
  lemma CarryBlock(lo: nat, l: nat, q: nat)
    requires q % 2 == 1
    ensures Neighbours(lo + PageSize(l) * (q - 1), lo + PageSize(l) * q, PageSize(l))
    ensures lo + PageSize(l) * (q - 1) == lo + PageSize(l + 1) * (q / 2)
    ensures Min(lo + PageSize(l) * q, lo + PageSize(l) * (q - 1)) == lo + PageSize(l) * (q - 1)
  {
    hide PageSize;
    PageSizeDoubles(l);
    assert q - 1 == 2 * (q / 2);
    assert PageSize(l) * q == PageSize(l) * (q - 1) + PageSize(l);
  }

  // The merge carries past the last list head exactly when every binary digit is set.
  lemma {:induction false} CarriesOutIff(free: Shelves, lo: nat, l: nat, q: nat)
    requires l <= |free| && Counting(free, lo, l, q)
    ensures Escapes(free, lo + PageSize(l) * q, l) <==> q + 1 == Pow2(|free| - l)
    decreases |free| - l
  {
    hide PageSize;
    if l < |free| && q % 2 == 1 {
      CarryBlock(lo, l, q);
      CarriesOutIff(free, lo, l + 1, q / 2);
    }
  }

  // An even number's list is empty: the block stays there.
  lemma SetsDigit(free: Shelves, lo: nat, l: nat, q: nat)
    requires l < |free| && Counting(free, lo, l, q) && q % 2 == 0
    ensures var head := lo + PageSize(l) * q;
      && !Escapes(free, head, l) && Merged(free, head, l) == free[l := [head]]
      && Counting(free[l := [head]], lo, l, q + 1)
  {
    hide PageSize;
    var head := lo + PageSize(l) * q;
    assert free[l] == [] && [head] + free[l] == [head];
    CountingLooksUp(free, free[l := [head]], lo, l + 1, q / 2);
    assert (q + 1) / 2 == q / 2;
  }

  // An odd number's block leaves its list, and the merge goes on one level up with half the number.
  lemma Carries(free: Shelves, lo: nat, l: nat, q: nat)
    requires l < |free| && Counting(free, lo, l, q) && q % 2 == 1
    requires !Escapes(free, lo + PageSize(l) * q, l)
    ensures var rest, up := free[l := []], lo + PageSize(l + 1) * (q / 2);
      && !Escapes(rest, up, l + 1) && Counting(rest, lo, l + 1, q / 2)
      && Merged(free, lo + PageSize(l) * q, l) == Merged(rest, up, l + 1)
  {
    hide PageSize;
    CarryBlock(lo, l, q);
    var rest := free[l := Without(free[l], 0)];
    assert |free[l]| == 1 && Without(free[l], 0) == [];
    assert rest == free[l := []];
    CountingLooksUp(free, rest, lo, l + 1, q / 2);
    EscapeLooksUp(free, rest, lo + PageSize(l) * (q - 1), l + 1);
  }

  // Unless it climbs out, the lists stand for the next number after it.
  lemma {:induction false} CountsOn(free: Shelves, lo: nat, l: nat, q: nat)
    requires l <= |free| && Counting(free, lo, l, q) && !Escapes(free, lo + PageSize(l) * q, l)
    ensures var after := Merged(free, lo + PageSize(l) * q, l);
      Counting(after, lo, l, q + 1) && forall m :: 0 <= m < l ==> after[m] == free[m]
    decreases |free| - l
  {
    hide PageSize, Merged, Escapes;
    InTable(free, lo + PageSize(l) * q, l);
    if q % 2 == 0 {
      SetsDigit(free, lo, l, q);
    } else {
      Carries(free, lo, l, q);
      CountsOn(free[l := []], lo, l + 1, q / 2);
      assert (q + 1) / 2 == q / 2 + 1;
    }
  }

  lemma InTable(free: Shelves, head: nat, l: nat)
    requires !Escapes(free, head, l)
    ensures l < |free|
  {
  }

  // ---------- the run ----------

  // Pages n, n + 1, ... up to `pages` are out.
  ghost predicate PagesOut(s: Arena, n: nat, pages: nat) {
    forall i: nat :: n <= i < pages ==> Has(s.out, 0, s.Lo() + PageSize(0) * i)
  }

  lemma FreeNext(s: Arena, n: nat)
    requires Good(s) && Counting(s.free, s.Lo(), 0, n) && PagesOut(s, n, Pow2(|s.free|))
    requires n + 1 < Pow2(|s.free|)
    ensures var op := FreeBlock(0, s.Lo() + PageSize(0) * n);
      && Allowed(s, op) && !Overruns(s, op)
      && var t := Step(s, op);
      && Good(t) && |t.free| == |s.free| && t.begin == s.begin
      && Counting(t.free, t.Lo(), 0, n + 1) && PagesOut(t, n + 1, Pow2(|t.free|))
  {
    hide PageSize, Good, Counting, Merged, Escapes, Pow2;
    var a := s.Lo() + PageSize(0) * n;
    var op := FreeBlock(0, a);
    assert Has(s.out, 0, a);
    CarriesOutIff(s.free, s.Lo(), 0, n);
    CountsOn(s.free, s.Lo(), 0, n);
    StepKeepsGood(s, op);
    OthersStayOut(s, n, Pow2(|s.free|));
  }

  lemma OthersStayOut(s: Arena, n: nat, pages: nat)
    requires PagesOut(s, n, pages) && 0 < |s.out|
    ensures forall i: nat :: n < i < pages ==>
      Has(Take(s.out, 0, s.Lo() + PageSize(0) * n), 0, s.Lo() + PageSize(0) * i)
  {
    hide PageSize;
    var a := s.Lo() + PageSize(0) * n;
    forall i: nat | n < i < pages
      ensures Has(Take(s.out, 0, a), 0, s.Lo() + PageSize(0) * i)
    {
      assert Has(s.out, 0, s.Lo() + PageSize(0) * i);
      MulMonotone(PageSize(0), n + 1, i);
      assert PageSize(0) * (n + 1) == PageSize(0) * n + PageSize(0);
    }
  }

  lemma {:induction false} FreeingOverruns(s: Arena, n: nat)
    requires Good(s) && Counting(s.free, s.Lo(), 0, n) && n < Pow2(|s.free|)
    requires PagesOut(s, n, Pow2(|s.free|))
    ensures !NeverOverruns(s)
    decreases Pow2(|s.free|) - n
  {
    hide PageSize, Good, Counting, NeverOverruns, Allowed, Overruns, Step;
    var op := FreeBlock(0, s.Lo() + PageSize(0) * n);
    if n + 1 == Pow2(|s.free|) {
      LastFree(s, n);
      OverrunsNow(s, op);
    } else {
      FreeNext(s, n);
      FreeingOverruns(Step(s, op), n + 1);
      EarlierOverruns(s, op);
    }
  }

  lemma LastFree(s: Arena, n: nat)
    requires Good(s) && Counting(s.free, s.Lo(), 0, n) && n + 1 == Pow2(|s.free|)
    requires PagesOut(s, n, Pow2(|s.free|))
    ensures var op := FreeBlock(0, s.Lo() + PageSize(0) * n); Allowed(s, op) && Overruns(s, op)
  {
    hide Good, Counting, PageSize, Escapes;
    CarriesOutIff(s.free, s.Lo(), 0, n);
  }

  // Nothing was handed out but pages, and nothing merged.
  ghost predicate OnlyPages(s: Arena) {
    && (forall l: nat :: PAGE_MAX_LEVELS <= l < |s.free| ==> s.free[l] == [])
    && (forall l: nat :: 0 < l < |s.out| ==> s.out[l] == multiset{})
  }

  ghost predicate AllTaken(s: Arena) {
    forall l: nat :: l < |s.free| ==> s.free[l] == []
  }

  lemma {:induction false} NothingCounts(free: Shelves, lo: nat, l: nat)
    requires l <= |free| && forall m: nat :: m < |free| ==> free[m] == []
    ensures Counting(free, lo, l, 0)
    decreases |free| - l
  {
    if l < |free| {
      NothingCounts(free, lo, l + 1);
    }
  }

  lemma CoveringPage(s: Arena, x: nat) returns (a: nat)
    requires Good(s) && OnlyPages(s) && AllTaken(s) && s.Lo() <= x < s.current
    ensures Has(s.out, 0, a) && Holds(0, a, x)
  {
    hide PageSize, Bytes, Inside, Disjoint;
    assert Covered(Together(s.free, s.out), x);
    var l: nat, b: nat :| Has(Together(s.free, s.out), l, b) && Holds(l, b, x);
    a := b;
  }

  lemma PagesApart(s: Arena, a: nat, b: nat)
    requires Good(s) && Has(s.out, 0, a) && Has(s.out, 0, b)
    ensures s.Lo() <= a && s.Lo() <= b && (a == b || Apart(0, a, 0, b))
  {
    hide PageSize, Bytes, Full;
    var stock := Together(s.free, s.out);
    assert Has(stock, 0, a) && Has(stock, 0, b);
  }

  // When the lists are empty and only pages are out, the tiling makes every page below the cursor an outstanding one.
  lemma {:induction false} PageIsOut(s: Arena, i: nat)
    requires Good(s) && OnlyPages(s) && AllTaken(s)
    requires s.Lo() + PageSize(0) * i < s.current
    ensures Has(s.out, 0, s.Lo() + PageSize(0) * i)
    decreases i
  {
    hide PageSize, Good, OnlyPages, AllTaken, Has;
    var x := s.Lo() + PageSize(0) * i;
    var a := CoveringPage(s, x);
    PagesApart(s, a, a);
    if i != 0 {
      assert PageSize(0) * i == PageSize(0) * (i - 1) + PageSize(0);
      PageIsOut(s, i - 1);
      PagesApart(s, a, x - PageSize(0));
    }
  }

  lemma AllTakenOverruns(s: Arena)
    requires Good(s) && OnlyPages(s) && AllTaken(s)
    requires s.Lo() + PageSize(0) * Pow2(|s.free|) <= s.current
    ensures !NeverOverruns(s)
  {
    hide PageSize, Good, NeverOverruns, OnlyPages, Counting;
    NothingCounts(s.free, s.Lo(), 0);
    forall i: nat | 0 <= i < Pow2(|s.free|)
      ensures Has(s.out, 0, s.Lo() + PageSize(0) * i)
    {
      MulMonotone(PageSize(0), i + 1, Pow2(|s.free|));
      assert PageSize(0) * (i + 1) == PageSize(0) * i + PageSize(0);
      PageIsOut(s, i);
    }
    FreeingOverruns(s, 0);
  }

  // One more page is taken, while there is one.
  lemma TakePage(s: Arena)
    requires Good(s) && OnlyPages(s) && !AllTaken(s)
    ensures var t := Step(s, UnitBlock);
      && Good(t) && OnlyPages(t) && |t.free| == |s.free| && t.begin == s.begin && t.current == s.current
      && Bytes(t.out) == Bytes(s.out) + PageSize(0)
  {
    hide PageSize, Tiles, Bytes, Together;
    OpenGood(s);
    StepKeepsGood(s, UnitBlock);
    if s.free[0] == [] {
      var l: nat :| l < |s.free| && s.free[l] != [];
      assert FirstAbove(s.free, 0) < PAGE_MAX_LEVELS;
    }
    BytesPut(s.out, 0, UnitAddress(s));
    assert Step(s, UnitBlock).out == Put(s.out, 0, UnitAddress(s));
  }

  lemma BytesTop(a: Stock)
    ensures a == [] ==> Bytes(a) == 0
    ensures a != [] ==> Bytes(a) == Bytes(a[..|a| - 1]) + |a[|a| - 1]| * PageSize(|a| - 1)
  {
    hide PageSize;
  }

  lemma {:induction false} BytesFewer(a: Stock, b: Stock)
    requires |a| == |b| && forall l :: 0 <= l < |a| ==> |a[l]| <= |b[l]|
    ensures Bytes(a) <= Bytes(b)
  {
    hide Bytes, PageSize;
    if a != [] {
      var top := |a| - 1;
      BytesFewer(a[..top], b[..top]);
      MulMonotone(PageSize(top), |a[top]|, |b[top]|);
      BytesTop(a);
      BytesTop(b);
    } else {
      BytesTop(a);
      BytesTop(b);
    }
  }

  lemma OutFits(s: Arena)
    requires Good(s)
    ensures Bytes(s.out) <= s.current - s.Lo()
  {
    BytesFewer(s.out, Together(s.free, s.out));
  }

  lemma {:induction false} TakingOverruns(s: Arena)
    requires Good(s) && OnlyPages(s)
    requires s.Lo() + PageSize(0) * Pow2(|s.free|) <= s.current
    ensures !NeverOverruns(s)
    decreases s.current - s.Lo() - Bytes(s.out)
  {
    hide PageSize, Good, NeverOverruns, OnlyPages, AllTaken, Bytes, Step;
    if AllTaken(s) {
      AllTakenOverruns(s);
    } else {
      TakePage(s);
      OutFits(s);
      OutFits(Step(s, UnitBlock));
      UnitIsFine(s);
      TakingOverruns(Step(s, UnitBlock));
      EarlierOverruns(s, UnitBlock);
    }
  }

  lemma UnitIsFine(s: Arena)
    ensures Allowed(s, UnitBlock) && !Overruns(s, UnitBlock)
    ensures Allowed(s, ExtendPages) && !Overruns(s, ExtendPages)
  {
  }

  // One more block of every level at the cursor: 63 pages.
  lemma AddPages(s: Arena)
    requires Good(s) && OnlyPages(s) && s.current + 63 * PageSize(0) <= s.End()
    ensures var t := Step(s, ExtendPages);
      && Good(t) && OnlyPages(t) && |t.free| == |s.free| && t.begin == s.begin
      && t.current == s.current + 63 * PageSize(0)
  {
    hide PageSize, Tiles, Together;
    OpenGood(s);
    StepKeepsGood(s, ExtendPages);
    SixLevelsFill();
    PageSizeValues();
    FitsIff(s, 5);
  }

  lemma {:induction false} GrowingOverruns(s: Arena)
    requires Good(s) && OnlyPages(s) && |s.free| < 12
    ensures !NeverOverruns(s)
    decreases s.End() - s.current
  {
    hide PageSize, Good, NeverOverruns, OnlyPages, Step;
    ElevenLevels(|s.free|);
    OpenGood(s);
    if s.Lo() + PageSize(0) * Pow2(|s.free|) <= s.current {
      TakingOverruns(s);
    } else {
      AddPages(s);
      OpenGood(Step(s, ExtendPages));
      UnitIsFine(s);
      GrowingOverruns(Step(s, ExtendPages));
      EarlierOverruns(s, ExtendPages);
    }
  }

  lemma ElevenLevels(slots: nat)
    requires slots < 12
    ensures PageSize(0) == 4096 && Pow2(slots) <= 2048
    ensures HEADER_SIZE + PageSize(0) * Pow2(slots) + 63 * PageSize(0) <= DEFAULT_PAGE_MEM_SIZE
  {
    PageSizeValues();
    assert Pow2(11) == 2048;
    if slots < 11 {
      Pow2Monotone(slots, 11);
    }
  }

  lemma StartIsPages(begin: nat, slots: nat)
    requires PAGE_MAX_LEVELS <= slots && begin + DEFAULT_PAGE_MEM_SIZE < INVALID_MEM_ADDR
    ensures OnlyPages(Start(begin, slots)) && |Start(begin, slots).free| == slots
  {
  }

  lemma {:induction false} TwelveAreSafe(s: Arena)
    requires Good(s) && 12 <= |s.free|
    ensures NeverOverruns(s)
  {
    forall ops: seq<Op> | Runs(s, ops)
      ensures Contained(After(s, ops))
    {
      RunKeepsGood(s, ops);
      forall op: Op | Allowed(After(s, ops), op)
        ensures !Overruns(After(s, ops), op)
      {
        TwelveLevelsNeverOverrun(After(s, ops), op);
      }
    }
  }

  // A table of list heads keeps every run inside it if and only if it has at least twelve of them.
  lemma TwelveHeadsExactly(begin: nat, slots: nat)
    requires PAGE_MAX_LEVELS <= slots && begin + DEFAULT_PAGE_MEM_SIZE < INVALID_MEM_ADDR
    ensures NeverOverruns(Start(begin, slots)) <==> 12 <= slots
  {
    hide NeverOverruns, OnlyPages, Good;
    StartIsPages(begin, slots);
    if 12 <= slots {
      TwelveAreSafe(Start(begin, slots));
    } else {
      GrowingOverruns(Start(begin, slots));
    }
  }
}
