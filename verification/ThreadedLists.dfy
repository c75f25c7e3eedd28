// Free lists threaded through memory: a head per list, and in each free block the address of the next one.
module ThreadedLists {
  import opened SizeClasses
  import opened BuddyLayout
  import opened BuddySpec

  function First(list: seq<nat>): nat {
    if list == [] then INVALID_MEM_ADDR else list[0]
  }

  function NextOf(list: seq<nat>, i: nat): nat {
    if i + 1 < |list| then list[i + 1] else INVALID_MEM_ADDR
  }

  // The words of memory link the list's blocks in order and end it with the invalid address.
  ghost predicate Linked(mem: map<nat, nat>, list: seq<nat>) {
    forall i: nat :: i < |list| ==> list[i] in mem && mem[list[i]] == NextOf(list, i)
  }

  ghost predicate Threaded(mem: map<nat, nat>, heads: seq<nat>, free: Shelves) {
    && |heads| == |free|
    && (forall l: nat :: l < |free| ==> heads[l] == First(free[l]))
    && (forall l: nat :: l < |free| ==> Linked(mem, free[l]))
  }

  ghost predicate OnList(free: Shelves, l: nat, i: nat) {
    l < |free| && i < |free[l]|
  }

  // No block is on two lists or twice on one: every threaded list is acyclic.
  ghost predicate Distinct(free: Shelves) {
    forall l: nat, i: nat, m: nat, j: nat ::
      OnList(free, l, i) && OnList(free, m, j) && (l != m || i != j) ==> free[l][i] != free[m][j]
  }

  ghost predicate Absent(free: Shelves, a: nat) {
    forall l: nat, i: nat :: OnList(free, l, i) ==> free[l][i] != a
  }

  lemma RepeatedCount(list: seq<nat>, i: nat, j: nat)
    requires i < j < |list| && list[i] == list[j]
    ensures 2 <= multiset(list)[list[i]]
  {
    assert list == list[..i] + [list[i]] + list[i + 1..j] + [list[j]] + list[j + 1..];
  }

  lemma AddressOnce(stock: Stock, l: nat, m: nat, a: nat)
    requires Disjoint(stock) && Has(stock, l, a) && Has(stock, m, a)
    ensures l == m
  {
    assert l == m || Apart(l, a, m, a);
  }

  lemma TilingSeparates(free: Shelves, out: Stock, lo: nat, hi: nat)
    requires |free| == |out| && Tiles(Together(free, out), lo, hi)
    ensures Distinct(free)
    ensures forall l: nat, i: nat :: OnList(free, l, i) ==> lo <= free[l][i] && free[l][i] + PageSize(l) <= hi
    ensures forall l: nat, a: nat :: Has(out, l, a) ==> Absent(free, a)
  {
    var stock := Together(free, out);
    assert forall l: nat, i: nat :: OnList(free, l, i) ==> Has(stock, l, free[l][i]);
    forall l: nat, i: nat, m: nat, j: nat | OnList(free, l, i) && OnList(free, m, j) && (l != m || i != j)
      ensures free[l][i] != free[m][j]
    {
      if l == m && free[l][i] == free[l][j] {
        RepeatedCount(free[l], if i < j then i else j, if i < j then j else i);
      } else if free[l][i] == free[m][j] {
        AddressOnce(stock, l, m, free[l][i]);
      }
    }
    forall l: nat, a: nat, m: nat, j: nat | Has(out, l, a) && OnList(free, m, j)
      ensures free[m][j] != a
    {
      assert Has(stock, l, a);
      if free[m][j] == a {
        AddressOnce(stock, l, m, a);
      }
    }
  }

  lemma PushThreads(mem: map<nat, nat>, heads: seq<nat>, free: Shelves, l: nat, a: nat)
    requires Threaded(mem, heads, free) && l < |free| && Absent(free, a)
    ensures Threaded(mem[a := heads[l]], heads[l := a], free[l := [a] + free[l]])
  {
    forall m: nat, i: nat | OnList(free, m, i)
      ensures free[m][i] != a
    {
    }
    assert forall i: nat :: 0 < i < |free[l]| + 1 ==> NextOf([a] + free[l], i) == NextOf(free[l], i - 1);
  }

  lemma PopThreads(mem: map<nat, nat>, heads: seq<nat>, free: Shelves, l: nat)
    requires Threaded(mem, heads, free) && l < |free| && free[l] != []
    ensures free[l][0] in mem
    ensures Threaded(mem, heads[l := mem[free[l][0]]], free[l := free[l][1..]])
  {
    assert forall i: nat :: i < |free[l]| - 1 ==> NextOf(free[l][1..], i) == NextOf(free[l], i + 1);
  }

  lemma StrayWriteThreads(mem: map<nat, nat>, heads: seq<nat>, free: Shelves, a: nat, word: nat)
    requires Threaded(mem, heads, free) && Absent(free, a)
    ensures Threaded(mem[a := word], heads, free)
  {
    forall m: nat, i: nat | OnList(free, m, i)
      ensures free[m][i] != a
    {
    }
  }

  lemma UnlinkThreads(mem: map<nat, nat>, heads: seq<nat>, free: Shelves, l: nat, j: nat)
    requires Threaded(mem, heads, free) && Distinct(free) && OnList(free, l, j) && 0 < j
    ensures free[l][j] in mem
    ensures Threaded(mem[free[l][j - 1] := mem[free[l][j]]], heads, free[l := Without(free[l], j)])
  {
    var list := free[l];
    assert mem[list[j]] == NextOf(list, j);
    assert forall i: nat, k: nat :: i < k < |list| ==> list[i] != list[k] by {
      assert forall i: nat, k: nat :: i < k < |list| ==> OnList(free, l, i) && OnList(free, l, k);
    }
    UnlinkList(mem, list, j);
    forall m: nat | m < |free| && m != l
      ensures Linked(mem[list[j - 1] := mem[list[j]]], free[m])
    {
      forall i: nat | i < |free[m]|
        ensures free[m][i] != list[j - 1]
      {
        assert OnList(free, m, i) && OnList(free, l, j - 1);
      }
      StrayWriteLinks(mem, free[m], list[j - 1], mem[list[j]]);
    }
  }

  lemma StrayWriteLinks(mem: map<nat, nat>, list: seq<nat>, a: nat, word: nat)
    requires Linked(mem, list) && a !in list
    ensures Linked(mem[a := word], list)
  {
  }

  lemma WordOf(mem: map<nat, nat>, list: seq<nat>, i: nat)
    requires Linked(mem, list) && i < |list|
    ensures list[i] in mem && mem[list[i]] == NextOf(list, i)
  {
  }

  lemma AllLinked(mem: map<nat, nat>, list: seq<nat>)
    requires forall i: nat :: i < |list| ==> list[i] in mem && mem[list[i]] == NextOf(list, i)
    ensures Linked(mem, list)
  {
  }

  lemma UnlinkList(mem: map<nat, nat>, list: seq<nat>, j: nat)
    requires Linked(mem, list) && 0 < j < |list|
    requires forall i: nat, k: nat :: i < k < |list| ==> list[i] != list[k]
    ensures Linked(mem[list[j - 1] := mem[list[j]]], Without(list, j))
  {
    hide Linked;
    var rest := Without(list, j);
    WordOf(mem, list, j);
    var after := mem[list[j - 1] := mem[list[j]]];
    forall i: nat | i < |rest|
      ensures rest[i] in after && after[rest[i]] == NextOf(rest, i)
    {
      var k := if i < j then i else i + 1;
      assert rest[i] == list[k];
      WordOf(mem, list, k);
    }
    AllLinked(after, rest);
  }

  // Free lists while the first block of list i is being cut: the halves from level k up are already listed.
  function HalvesPushed(free: Shelves, k: nat, i: nat): (lists: Shelves)
    requires k <= i < |free| && free[i] != []
    ensures |lists| == |free| && lists[i] == free[i]
  {
    seq(|free|, l requires 0 <= l < |free| => if k <= l < i then [free[i][0] + PageSize(l)] + free[l] else free[l])
  }

  lemma HalvesPushedOnce(free: Shelves, k: nat, i: nat)
    requires k < i < |free| && free[i] != []
    ensures var lists := HalvesPushed(free, k + 1, i);
      HalvesPushed(free, k, i) == lists[k := [free[i][0] + PageSize(k)] + lists[k]]
  {
    hide PageSize;
    var before, after := HalvesPushed(free, k + 1, i), HalvesPushed(free, k, i);
    assert after[k] == [free[i][0] + PageSize(k)] + before[k];
    assert forall l :: 0 <= l < |free| && l != k ==> after[l] == before[l];
  }

  lemma HalvesPushedAll(free: Shelves, level: nat, i: nat)
    requires level <= i < |free| && free[i] != []
    ensures CutDown(free, level, i) == HalvesPushed(free, level, i)[i := free[i][1..]]
    ensures HalvesPushed(free, i, i) == free
  {
    var cut, pushed := CutDown(free, level, i), HalvesPushed(free, level, i);
    assert forall l :: 0 <= l < |free| ==> cut[l] == pushed[i := free[i][1..]][l];
    assert forall l :: 0 <= l < |free| ==> HalvesPushed(free, i, i)[l] == free[l];
  }

  // The next half to be listed starts inside the block being cut, so no list holds its address yet.
  lemma NextHalfAbsent(free: Shelves, out: Stock, k: nat, i: nat, lo: nat, hi: nat)
    requires |free| == |out| && Tiles(Together(free, out), lo, hi)
    requires k < i < |free| && free[i] != []
    ensures Absent(HalvesPushed(free, k + 1, i), free[i][0] + PageSize(k))
  {
    var block := free[i][0];
    var a := block + PageSize(k);
    var lists := HalvesPushed(free, k + 1, i);
    PageSizeGrows(k, i);
    forall l: nat, j: nat | OnList(lists, l, j)
      ensures lists[l][j] != a
    {
      if k + 1 <= l < i && j == 0 {
        PageSizeGrows(k, l);
      } else {
        var b := lists[l][j];
        assert b in free[l];
        assert Has(Together(free, out), l, b) && Has(Together(free, out), i, block);
        assert (l == i && b == block) || Apart(l, b, i, block);
      }
    }
  }

  ghost predicate ThreadsAt(s: Arena, k: nat, mem: map<nat, nat>, heads: seq<nat>)
    requires k <= |s.free|
  {
    Threaded(mem, heads, Extended(s, k).free)
  }

  // Adding one block behind the cursor: it lies behind every block, so no list holds its address.
  lemma ExtendThreads(s: Arena, k: nat, mem: map<nat, nat>, heads: seq<nat>)
    requires |s.free| == |s.out| && k < PAGE_MAX_LEVELS <= |s.free| && s.current <= s.End()
    requires Tiles(Together(s.free, s.out), s.Lo(), s.current)
    requires ThreadsAt(s, k, mem, heads)
    ensures var node := Extended(s, k).current;
      && ThreadsAt(s, k + 1, mem[node := heads[k]], heads[k := node])
      && Extended(s, k + 1).current == node + PageSize(k)
      && node != ERROR_ALLOC_OFFSET
      && (node + PageSize(k) <= s.End() <==> k < Fitting(s, 0))
  {
    var before := Extended(s, k);
    FitsIff(s, k);
    ExtendOnce(s, k);
    assert Absent(before.free, before.current) by {
      ExtendKeepsTiling(s, k);
      TilingSeparates(before.free, s.out, s.Lo(), before.current);
    }
    PushThreads(mem, heads, before.free, k, before.current);
  }

  lemma ExtendNothing(s: Arena, mem: map<nat, nat>, heads: seq<nat>)
    requires Threaded(mem, heads, s.free)
    ensures Extended(s, 0) == s && ThreadsAt(s, 0, mem, heads)
  {
    assert Extended(s, 0).free == s.free;
  }

  lemma ExtendEnds(s: Arena, mem: map<nat, nat>, heads: seq<nat>)
    requires Good(s) && ThreadsAt(s, Fitting(s, 0), mem, heads)
    ensures Good(Extend(s)) && Threaded(mem, heads, Extend(s).free)
    ensures Extend(s).begin == s.begin && Extend(s).out == s.out && Extend(s).End() == s.End()
    ensures Extend(s).current == Extended(s, Fitting(s, 0)).current && |Extend(s).free| == |s.free|
    ensures Fitting(s, 0) == PAGE_MAX_LEVELS <==> s.current + 63 * 4096 <= s.End()
  {
    StepKeepsGood(s, ExtendPages);
    SixLevelsFill();
    FitsIff(s, 5);
  }

  lemma InitialStarts(begin: nat, slots: nat, mem: map<nat, nat>, heads: seq<nat>)
    requires PAGE_MAX_LEVELS <= slots && begin + DEFAULT_PAGE_MEM_SIZE < INVALID_MEM_ADDR
    requires |heads| == slots && forall l :: 0 <= l < slots ==> heads[l] == INVALID_MEM_ADDR
    ensures var s := Blank(begin, slots);
      && |s.free| == |s.out| == slots && s.out == Nothing(slots)
      && begin + HEADER_SIZE == s.current <= s.End() == begin + DEFAULT_PAGE_MEM_SIZE
      && Tiles(Together(s.free, s.out), s.Lo(), s.current)
      && Extended(s, 0).current == s.current
      && ThreadsAt(s, 0, mem, heads)
      && Fitting(s, 0) == PAGE_MAX_LEVELS
  {
    BlankTiles(begin, slots);
    BlankFits(begin, slots);
    ExtendNothing(Blank(begin, slots), mem, heads);
  }

  lemma InitialEnds(begin: nat, slots: nat, mem: map<nat, nat>, heads: seq<nat>)
    requires PAGE_MAX_LEVELS <= slots && begin + DEFAULT_PAGE_MEM_SIZE < INVALID_MEM_ADDR
    requires ThreadsAt(Blank(begin, slots), PAGE_MAX_LEVELS, mem, heads)
    ensures var s := Initial(begin, slots);
      && Good(s) && Threaded(mem, heads, s.free)
      && s.begin == begin && s.out == Nothing(slots)
      && s.End() == begin + DEFAULT_PAGE_MEM_SIZE
      && s.current == Extended(Blank(begin, slots), PAGE_MAX_LEVELS).current
  {
    InitialIsGood(begin, slots);
  }

  lemma HeadTells(s: Arena, mem: map<nat, nat>, heads: seq<nat>, l: nat)
    requires Good(s) && Threaded(mem, heads, s.free) && l < |s.free|
    ensures heads[l] == INVALID_MEM_ADDR <==> s.free[l] == []
    ensures s.free[l] != [] ==> heads[l] == s.free[l][0] && heads[l] in mem && heads[l] != ERROR_ALLOC_OFFSET
  {
    TilingSeparates(s.free, s.out, s.Lo(), s.current);
    if s.free[l] != [] {
      assert OnList(s.free, l, 0);
    }
  }

  lemma CutStarts(s: Arena, level: nat, i: nat, mem: map<nat, nat>, heads: seq<nat>)
    requires Good(s) && Threaded(mem, heads, s.free) && level <= i < |s.free| && s.free[i] != []
    ensures HalvesPushed(s.free, i, i) == s.free
    ensures heads[i] == s.free[i][0]
  {
    HalvesPushedAll(s.free, level, i);
  }

  lemma CutRound(s: Arena, k: nat, i: nat, mem: map<nat, nat>, heads: seq<nat>)
    requires Good(s) && k < i < |s.free| && s.free[i] != []
    requires Threaded(mem, heads, HalvesPushed(s.free, k + 1, i))
    ensures PageSize(k + 1) == PageSize(k) + PageSize(k)
    ensures var half := s.free[i][0] + PageSize(k);
      Threaded(mem[half := heads[k]], heads[k := half], HalvesPushed(s.free, k, i))
  {
    hide *;
    OpenGood(s);
    PageSizeDoubles(k);
    HalvesPushedOnce(s.free, k, i);
    NextHalfAbsent(s.free, s.out, k, i, s.Lo(), s.current);
    PushThreads(mem, heads, HalvesPushed(s.free, k + 1, i), k, s.free[i][0] + PageSize(k));
  }

  lemma CutEnds(s: Arena, level: nat, i: nat, mem: map<nat, nat>, heads: seq<nat>)
    requires Good(s) && level <= i < |s.free| && s.free[i] != []
    requires Threaded(mem, heads, HalvesPushed(s.free, level, i))
    ensures heads[i] == s.free[i][0] && heads[i] in mem && heads[i] != ERROR_ALLOC_OFFSET
    ensures var ret := s.free[i][0];
      var after := s.(free := CutDown(s.free, level, i), out := Put(s.out, level, ret));
      && Good(after) && after.End() == s.End()
      && Threaded(mem, heads[i := mem[ret]], after.free)
      && Threaded(mem[ret := INVALID_MEM_ADDR], heads[i := mem[ret]], after.free)
  {
    var ret := s.free[i][0];
    var free, out := CutDown(s.free, level, i), Put(s.out, level, ret);
    OpenGood(s);
    CutIsGood(s, level, i);
    HalvesPushedAll(s.free, level, i);
    PopThreads(mem, heads, HalvesPushed(s.free, level, i), i);
    CutFrees(s, level, i);
    hide *;
    StrayWriteThreads(mem, heads[i := mem[ret]], free, ret, INVALID_MEM_ADDR);
  }

  lemma CutFrees(s: Arena, level: nat, i: nat)
    requires Good(s) && level <= i < |s.free| && s.free[i] != []
    ensures Absent(CutDown(s.free, level, i), s.free[i][0])
    ensures s.free[i][0] != ERROR_ALLOC_OFFSET
  {
    var out := Put(s.out, level, s.free[i][0]);
    CutIsGood(s, level, i);
    TilingSeparates(CutDown(s.free, level, i), out, s.Lo(), s.current);
    assert Has(out, level, s.free[i][0]);
    assert Has(Together(s.free, s.out), i, s.free[i][0]);
  }

  // ---------- merging ----------

  // Subtraction of unsigned 64-bit words.
  function Minus(a: int, b: int): int {
    (a - b) % 0x1_0000_0000_0000_0000
  }

  // The test the merge applies to a list word `now`.
  predicate Touches(now: nat, head: nat, size: nat) {
    Minus(now, size) == head || Minus(head, size) == now
  }

  function PushedHead(s: Arena, level: nat, head: nat): (lists: Shelves)
    requires level < |s.free|
    ensures |lists| == |s.free| && lists[level] == [head] + s.free[level]
  {
    s.free[level := [head] + s.free[level]]
  }

  lemma TouchesMeansNeighbour(now: nat, head: nat, size: nat)
    requires head + size < INVALID_MEM_ADDR
    ensures now + size < INVALID_MEM_ADDR ==> (Touches(now, head, size) <==> Neighbours(now, head, size))
    ensures !Touches(INVALID_MEM_ADDR, head, size)
  {
  }

  // Memory in which the head is pushed on its list, and memory in which the k-th listed block is gone.
  ghost predicate Pushed(s: Arena, level: nat, head: nat, mem: map<nat, nat>, heads: seq<nat>) {
    level < |s.free| && Threaded(mem, heads, PushedHead(s, level, head))
  }

  ghost predicate Unlinked(s: Arena, level: nat, k: nat, mem: map<nat, nat>, heads: seq<nat>) {
    level < |s.free| && k < |s.free[level]| && Threaded(mem, heads, s.free[level := Without(s.free[level], k)])
  }

  // The walk stands behind k elements of the list that the head was pushed on.
  ghost predicate Walking(s: Arena, level: nat, head: nat, k: nat, last: nat, now: nat) {
    && level < |s.free|
    && k <= |s.free[level]|
    && k <= FirstNeighbour(s.free[level], head, PageSize(level))
    && last == ([head] + s.free[level])[k]
    && now == NextOf([head] + s.free[level], k)
  }

  lemma MergeStarts(s: Arena, level: nat, head: nat, mem: map<nat, nat>, heads: seq<nat>)
    requires Good(s) && Threaded(mem, heads, s.free) && Has(s.out, level, head) && |s.out| == |s.free|
    ensures |heads| == |s.free|
    ensures Pushed(s, level, head, mem[head := heads[level]], heads[level := head])
    ensures Walking(s, level, head, 0, head, heads[level])
  {
    OpenGood(s);
    TilingSeparates(s.free, s.out, s.Lo(), s.current);
    PushThreads(mem, heads, s.free, level, head);
  }

  // Words met on the walk compare as the addresses they stand for, and none of them is the sentinel.
  lemma WalkWord(s: Arena, level: nat, head: nat, k: nat, last: nat, now: nat)
    requires Good(s) && |s.out| == |s.free| && Has(s.out, level, head)
    requires Walking(s, level, head, k, last, now)
    ensures now == INVALID_MEM_ADDR <==> k == |s.free[level]|
    ensures now == INVALID_MEM_ADDR ==> !Touches(now, head, PageSize(level))
    ensures now == INVALID_MEM_ADDR ==> FirstNeighbour(s.free[level], head, PageSize(level)) == |s.free[level]|
    ensures now != INVALID_MEM_ADDR ==>
      && k < |s.free[level]| && now == s.free[level][k]
      && (Touches(now, head, PageSize(level)) ==> k == FirstNeighbour(s.free[level], head, PageSize(level)))
      && (!Touches(now, head, PageSize(level)) ==> k < FirstNeighbour(s.free[level], head, PageSize(level)))
      && (0 < k ==> last == s.free[level][k - 1])
  {
    OpenGood(s);
    assert Has(Together(s.free, s.out), level, head);
    assert now == if k < |s.free[level]| then s.free[level][k] else INVALID_MEM_ADDR;
    if k < |s.free[level]| {
      assert Has(Together(s.free, s.out), level, s.free[level][k]);
      TouchesMeansNeighbour(s.free[level][k], head, PageSize(level));
    } else {
      TouchesMeansNeighbour(0, head, PageSize(level));
    }
  }

  lemma WalkStep(s: Arena, level: nat, head: nat, k: nat, last: nat, now: nat,
                 mem: map<nat, nat>, heads: seq<nat>)
    requires Walking(s, level, head, k, last, now) && k < |s.free[level]| && now == s.free[level][k]
    requires Pushed(s, level, head, mem, heads)
    ensures now in mem && head in mem
    ensures k < FirstNeighbour(s.free[level], head, PageSize(level)) ==> Walking(s, level, head, k + 1, now, mem[now])
  {
    var list := [head] + s.free[level];
    assert list[k + 1] in mem && mem[list[k + 1]] == NextOf(list, k + 1);
    assert list[0] in mem;
  }

  // Unlinking the head and its first neighbour leaves the list without that neighbour.
  lemma MergeUnlinksFirst(s: Arena, level: nat, head: nat, mem: map<nat, nat>, heads: seq<nat>)
    requires level < |s.free| && s.free[level] != []
    requires |heads| == |s.free|
    requires Pushed(s, level, head, mem, heads)
    ensures s.free[level][0] in mem
    ensures Unlinked(s, level, 0, mem, heads[level := mem[s.free[level][0]]])
  {
    var pushed := PushedHead(s, level, head);
    PopThreads(mem, heads, pushed, level);
    var once := pushed[level := pushed[level][1..]];
    assert once[level] == s.free[level];
    PopThreads(mem, heads[level := mem[head]], once, level);
    assert once[level][1..] == Without(s.free[level], 0);
    assert once[level := once[level][1..]] == s.free[level := Without(s.free[level], 0)];
    assert heads[level := mem[head]][level := mem[s.free[level][0]]] == heads[level := mem[s.free[level][0]]];
  }

  lemma MergeUnlinksLater(s: Arena, level: nat, head: nat, j: nat, mem: map<nat, nat>, heads: seq<nat>)
    requires Good(s) && |s.out| == |s.free| && Has(s.out, level, head) && 0 < j < |s.free[level]|
    requires Pushed(s, level, head, mem, heads)
    ensures s.free[level][j] in mem && |heads| == |s.free|
    ensures var after := mem[s.free[level][j - 1] := mem[s.free[level][j]]];
      && head in after
      && Unlinked(s, level, j, after, heads[level := after[head]])
  {
    var pushed := PushedHead(s, level, head);
    var list := s.free[level];
    PushedDistinct(s, level, head);
    UnlinkThreads(mem, heads, pushed, level, j + 1);
    var after := mem[list[j - 1] := mem[list[j]]];
    assert Threaded(after, heads, pushed[level := Without(pushed[level], j + 1)]);
    WithoutAfterHead(list, head, j);
    UnlinkHead(after, heads, pushed[level := [head] + Without(list, j)], level, head);
    assert pushed[level := [head] + Without(list, j)][level := Without(list, j)]
        == s.free[level := Without(list, j)];
  }

  lemma WithoutAfterHead(list: seq<nat>, head: nat, j: nat)
    requires j < |list|
    ensures Without([head] + list, j + 1) == [head] + Without(list, j)
  {
  }

  lemma UnlinkHead(mem: map<nat, nat>, heads: seq<nat>, free: Shelves, level: nat, head: nat)
    requires level < |free| && free[level] != [] && free[level][0] == head
    requires Threaded(mem, heads, free)
    ensures head in mem && Threaded(mem, heads[level := mem[head]], free[level := free[level][1..]])
  {
    PopThreads(mem, heads, free, level);
  }

  lemma PushedDistinct(s: Arena, level: nat, head: nat)
    requires Good(s) && |s.out| == |s.free| && Has(s.out, level, head)
    ensures Distinct(PushedHead(s, level, head))
  {
    OpenGood(s);
    TilingSeparates(s.free, s.out, s.Lo(), s.current);
    var pushed := PushedHead(s, level, head);
    forall l: nat, i: nat | OnList(pushed, l, i) && !(l == level && i == 0)
      ensures pushed[l][i] != head
      ensures OnList(s.free, l, if l == level then i - 1 else i)
      ensures pushed[l][i] == s.free[l][if l == level then i - 1 else i]
    {
      assert OnList(s.free, l, if l == level then i - 1 else i);
    }
  }

  // `now` is the k-th listed block and the first one next to the head.
  ghost predicate FirstTouched(s: Arena, level: nat, head: nat, k: nat, now: nat) {
    && level < |s.free|
    && k < |s.free[level]|
    && now == s.free[level][k]
    && k == FirstNeighbour(s.free[level], head, PageSize(level))
  }

  // The test on the first word of the walk.
  lemma WalkStart(s: Arena, level: nat, head: nat, now: nat, mem: map<nat, nat>, heads: seq<nat>)
    requires Good(s) && |s.out| == |s.free| == |heads| && Has(s.out, level, head)
    requires Walking(s, level, head, 0, head, now) && Pushed(s, level, head, mem, heads)
    ensures Touches(now, head, PageSize(level)) ==>
      && now in mem
      && FirstTouched(s, level, head, 0, now)
      && Unlinked(s, level, 0, mem, heads[level := mem[now]])
  {
    WalkWord(s, level, head, 0, head, now);
    if now != INVALID_MEM_ADDR {
      MergeUnlinksFirst(s, level, head, mem, heads);
    }
  }

  // One round of the walk: what the test on the current word decides, and the two ways to go on.
  lemma WalkRound(s: Arena, level: nat, head: nat, k: nat, last: nat, now: nat, mem: map<nat, nat>, heads: seq<nat>)
    requires Good(s) && |s.out| == |s.free| && Has(s.out, level, head) && now != INVALID_MEM_ADDR
    requires Walking(s, level, head, k, last, now) && Pushed(s, level, head, mem, heads)
    requires k == 0 ==> !Touches(now, head, PageSize(level))
    ensures level < |s.free| == |heads| && k < |s.free[level]| && now in mem && head in mem
    ensures !Touches(now, head, PageSize(level)) ==> Walking(s, level, head, k + 1, now, mem[now])
    ensures Touches(now, head, PageSize(level)) ==>
      && FirstTouched(s, level, head, k, now)
      && var after := mem[last := mem[now]];
      && head in after
      && Unlinked(s, level, k, after, heads[level := after[head]])
  {
    WalkWord(s, level, head, k, last, now);
    WalkStep(s, level, head, k, last, now, mem, heads);
    if Touches(now, head, PageSize(level)) {
      MergeUnlinksLater(s, level, head, k, mem, heads);
    }
  }

  // The arena in which the merge goes on one level up, and what its outcome says about the whole merge.
  function Regrouped(s: Arena, level: nat, head: nat, j: nat): (next: Arena)
    requires level + 1 < |s.free| == |s.out| && j < |s.free[level]|
    ensures |next.free| == |next.out| == |s.free| && next.begin == s.begin && next.current == s.current
  {
    s.(free := s.free[level := Without(s.free[level], j)],
       out := Put(Take(s.out, level, head), level + 1, Min(head, s.free[level][j])))
  }

  lemma RegroupedIsGood(s: Arena, level: nat, head: nat, j: nat)
    requires Good(s) && |s.out| == |s.free| && Has(s.out, level, head) && j < |s.free[level]|
    requires Neighbours(s.free[level][j], head, PageSize(level)) && level + 1 < |s.free|
    ensures Good(Regrouped(s, level, head, j)) && Regrouped(s, level, head, j).End() == s.End()
    ensures Has(Regrouped(s, level, head, j).out, level + 1, Min(head, s.free[level][j]))
  {
    MergeStepTiles(s.free, s.out, head, level, j, s.Lo(), s.current);
  }

  lemma MergeClimbs(s: Arena, level: nat, head: nat, j: nat)
    requires |s.out| == |s.free| && Has(s.out, level, head) && j < |s.free[level]|
    requires j == FirstNeighbour(s.free[level], head, PageSize(level))
    ensures var low := Min(head, s.free[level][j]);
      && (level + 1 == |s.free| ==> Escapes(s.free, head, level))
      && (level + 1 < |s.free| ==>
            var next := Regrouped(s, level, head, j);
            && Escapes(s.free, head, level) == Escapes(next.free, low, level + 1)
            && (!Escapes(next.free, low, level + 1) ==> Release(next, level + 1, low) == Release(s, level, head)))
  {
    var low := Min(head, s.free[level][j]);
    var rest := s.free[level := Without(s.free[level], j)];
    EscapeLooksUp(s.free, rest, low, level + 1);
    if level + 1 < |s.free| {
      PutThenTake(Take(s.out, level, head), level + 1, low);
    }
  }

  lemma ClimbStarts(s: Arena, level: nat, head: nat, k: nat, now: nat, mem: map<nat, nat>, heads: seq<nat>)
    requires Good(s) && |s.out| == |s.free| && Has(s.out, level, head)
    requires FirstTouched(s, level, head, k, now) && Unlinked(s, level, k, mem, heads)
    ensures var low := if head < now then head else now;
      && level < |s.free| && k < |s.free[level]|
      && (level + 1 == |s.free| ==> Escapes(s.free, head, level))
      && (level + 1 < |s.free| ==>
            var next := Regrouped(s, level, head, k);
            && Good(next) && next.End() == s.End() && Has(next.out, level + 1, low)
            && next.begin == s.begin && next.current == s.current && Threaded(mem, heads, next.free)
            && Escapes(s.free, head, level) == Escapes(next.free, low, level + 1)
            && (!Escapes(next.free, low, level + 1) ==> Release(next, level + 1, low) == Release(s, level, head)))
  {
    MergeClimbs(s, level, head, k);
    if level + 1 < |s.free| {
      RegroupedIsGood(s, level, head, k);
    }
  }

  lemma MergeEnds(s: Arena, level: nat, head: nat, k: nat, last: nat, now: nat, mem: map<nat, nat>, heads: seq<nat>)
    requires Good(s) && |s.out| == |s.free| && Has(s.out, level, head) && now == INVALID_MEM_ADDR
    requires Walking(s, level, head, k, last, now) && Pushed(s, level, head, mem, heads)
    ensures level < |s.free| == |heads| && !Escapes(s.free, head, level)
    ensures var after := Release(s, level, head);
      && Good(after) && after.End() == s.End()
      && after == s.(free := PushedHead(s, level, head), out := Take(s.out, level, head))
      && Threaded(mem, heads, after.free)
  {
    hide PageSize, Tiles, Together, Linked;
    WalkWord(s, level, head, k, last, now);
    NoNeighbourStays(s.free, head, level);
    MergeKeepsTiling(s.free, s.out, head, level, s.Lo(), s.current);
  }

  lemma NoNeighbourStays(free: Shelves, head: nat, level: nat)
    requires level < |free| && FirstNeighbour(free[level], head, PageSize(level)) == |free[level]|
    ensures !Escapes(free, head, level) && Merged(free, head, level) == free[level := [head] + free[level]]
  {
  }
}
