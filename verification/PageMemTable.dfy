// The page table of the arena: list heads and a bump cursor over memory in which the free lists are threaded.
module PageMemTables {
  import opened SizeClasses
  import opened BuddyLayout
  import opened BuddySpec
  import opened ThreadedLists

  class PageMemTable {
    var begin: nat
    var end: nat
    var current: nat
    var heads: seq<nat>      // the head address of each free list; the source has PAGE_MAX_LEVELS of them
    var mem: map<nat, nat>   // the words written into free blocks, by address
    ghost var free: Shelves
    ghost var out: Stock     // the blocks clients hold

    ghost function View(): Arena
      reads this
    {
      Arena(begin, current, free, out)
    }

    ghost predicate Valid()
      reads this
    {
      && Good(View())
      && end == View().End()
      && Threaded(mem, heads, free)
    }

    lemma Settled(s: Arena)
      requires Arena(begin, current, free, out) == s
      requires Good(s) && end == s.End() && Threaded(mem, heads, s.free)
      ensures Valid() && View() == s
    {
    }

    ghost function Opened(): (s: Arena)
      requires Valid()
      reads this
      ensures s == View() == Arena(begin, current, free, out)
      ensures Good(s) && 0 < PAGE_MAX_LEVELS <= |s.free| == |s.out| && s.current <= s.End() == end
      ensures Tiles(Together(s.free, s.out), s.Lo(), s.current)
      ensures Threaded(mem, heads, s.free) && |heads| == |s.free|
    {
      View()
    }

    constructor Init(addr: nat, slots: nat)
      requires PAGE_MAX_LEVELS <= slots && addr + 10 * 1024 * 1024 < 0xFFFF_FFFF
      ensures Valid() && View() == Initial(addr, slots)
      ensures begin == addr && end == addr + 10 * 1024 * 1024
    {
      hide *;
      ArenaNumbers();
      begin, end, current := addr, addr + DEFAULT_PAGE_MEM_SIZE, addr;
      heads, mem := seq(slots, _ => INVALID_MEM_ADDR), map[];
      free, out := seq(slots, _ => []), Nothing(slots);
      new;
      ghost var blank := Blank(addr, slots);
      InitialStarts(addr, slots, mem, heads);
      var _ := AllocMem(HEADER_SIZE);
      for i := 0 to PAGE_MAX_LEVELS
        invariant begin == addr && end == blank.End() && |heads| == slots && out == blank.out
        invariant current == Extended(blank, i).current
        invariant ThreadsAt(blank, i, mem, heads)
        invariant forall l :: i <= l < slots ==> heads[l] == INVALID_MEM_ADDR
      {
        ExtendThreads(blank, i, mem, heads);
        var node := AllocMem(PageSize(i));
        heads := heads[i := node];
        mem := mem[node := INVALID_MEM_ADDR];
      }
      free := Initial(addr, slots).free;
      InitialEnds(addr, slots, mem, heads);
      Settled(Initial(addr, slots));
    }

    method AllocMem(len: nat) returns (ret: nat)
      modifies this`current
      ensures current == if old(current) + len <= end then old(current) + len else old(current)
      ensures ret == if old(current) + len <= end then old(current) else 0
    {
      if end < current + len {
        return ERROR_ALLOC_OFFSET;
      }
      ret := current;
      current := current + len;
    }

    method ExtendPageMem() returns (ok: bool)
      requires Valid()
      modifies this
      ensures Valid() && |heads| == old(|heads|)
      ensures View() == Extend(old(View()))
      ensures ok <==> old(current) + (63 * 4096) <= end
    {
      hide *;
      ArenaNumbers();
      ghost var before := Opened();
      ghost var n := Fitting(before, 0);
      ExtendNothing(before, mem, heads);
      for i := 0 to PAGE_MAX_LEVELS
        invariant i <= n && begin == before.begin && end == before.End() && out == before.out && |heads| == |before.free|
        invariant current == Extended(before, i).current
        invariant ThreadsAt(before, i, mem, heads)
      {
        ExtendThreads(before, i, mem, heads);
        var addr := AllocMem(PageSize(i));
        if addr != ERROR_ALLOC_OFFSET {
          mem := mem[addr := heads[i]];
          heads := heads[i := addr];
        } else {
          ExtendEnds(before, mem, heads);
          free := Extend(before).free;
          Settled(Extend(before));
          return false;
        }
      }
      ExtendEnds(before, mem, heads);
      free := Extend(before).free;
      Settled(Extend(before));
      return true;
    }

    // The part of SplitFromHighLevel that runs once a level with a free block is found.
    method CutFrom(level: nat, i: nat) returns (ret: nat)
      requires Valid() && level < i < |free| && free[i] != []
      modifies this
      ensures Valid() && |heads| == old(|heads|)
      ensures ret == old(free)[i][0]
      ensures View() == old(View()).(free := CutDown(old(free), level, i), out := Put(old(out), level, ret))
    {
      hide *;
      ghost var before := Opened();
      CutStarts(before, level, i, mem, heads);
      ret := heads[i];
      var currentLevel := i;
      var endOffset := heads[i] + PageSize(currentLevel);
      while level < currentLevel
        invariant level <= currentLevel <= i && endOffset == ret + PageSize(currentLevel)
        invariant Arena(begin, current, free, out) == before && end == before.End()
        invariant |heads| == |before.free|
        invariant Threaded(mem, heads, HalvesPushed(before.free, currentLevel, i))
      {
        CutRound(before, currentLevel - 1, i, mem, heads);
        endOffset := endOffset - PageSize(currentLevel - 1);
        mem := mem[endOffset := heads[currentLevel - 1]];
        heads := heads[currentLevel - 1 := endOffset];
        currentLevel := currentLevel - 1;
      }
      CutEnds(before, level, i, mem, heads);
      heads := heads[i := mem[heads[i]]];
      mem := mem[ret := INVALID_MEM_ADDR];
      free, out := CutDown(before.free, level, i), Put(before.out, level, ret);
      Settled(before.(free := free, out := out));
    }

    method SplitFromHighLevel(level: nat) returns (ret: nat)
      requires Valid()
      modifies this
      ensures Valid() && |heads| == old(|heads|)
      ensures View() == Split(old(View()), level)
      ensures ret == SplitAddress(old(View()), level)
    {
      hide *;
      ghost var before := Opened();
      var i := level + 1;
      while i < PAGE_MAX_LEVELS
        invariant level < i && unchanged(this)
        invariant forall l :: level < l < i && l < PAGE_MAX_LEVELS ==> before.free[l] == []
      {
        HeadTells(before, mem, heads, i);
        if heads[i] != INVALID_MEM_ADDR {
          SplitIs(before, level, i);
          ret := CutFrom(level, i);
          return;
        }
        i := i + 1;
      }
      SplitIs(before, level, i);
      return ERROR_ALLOC_OFFSET;
    }

    method GetUnitFromPageLevel() returns (ret: nat)
      requires Valid()
      modifies this
      ensures Valid() && |heads| == old(|heads|)
      ensures View() == Unit(old(View()))
      ensures ret == UnitAddress(old(View()))
    {
      hide *;
      ghost var before := Opened();
      HeadTells(before, mem, heads, 0);
      UnitIs(before);
      if heads[0] != INVALID_MEM_ADDR {
        CutStarts(before, 0, 0, mem, heads);
        CutEnds(before, 0, 0, mem, heads);
        ret := heads[0];
        heads := heads[0 := mem[ret]];
        free, out := CutDown(before.free, 0, 0), Put(before.out, 0, ret);
        Settled(before.(free := free, out := out));
        return;
      }
      ret := SplitFromHighLevel(0);
    }

    // The tail of a merge step: two neighbours are off their list, the block they form goes one level up.
    // The arena seen before the step is `s`; from here on clients hold the larger block.
    method Climb(head: nat, now: nat, level: nat, ghost s: Arena, ghost k: nat) returns (inside: bool)
      requires Arena(begin, current, free, out) == s && end == s.End() && level < |heads| == |s.free| == |s.out|
      requires Good(s) && Has(s.out, level, head)
      requires FirstTouched(s, level, head, k, now) && Unlinked(s, level, k, mem, heads)
      modifies this
      ensures inside <==> !Escapes(s.free, head, level)
      ensures inside ==> Valid() && |heads| == old(|heads|) && View() == Release(s, level, head)
      decreases |heads| - level, 0
    {
      hide *;
      ClimbStarts(s, level, head, k, now, mem, heads);
      if level + 1 < |heads| {
        free, out := Regrouped(s, level, head, k).free, Regrouped(s, level, head, k).out;
        Settled(Regrouped(s, level, head, k));
      }
      inside := MergePageLevel(if head < now then head else now, level + 1);
    }

    // Returns whether the merge stayed inside the table of list heads. On reaching a level without a head the
    // source goes on with memory that is no list head; the model stops there.
    method MergePageLevel(head: nat, level: nat) returns (inside: bool)
      requires level <= |heads|
      requires level < |heads| ==> Valid() && Has(out, level, head)
      modifies this
      ensures level < old(|heads|) ==> (inside <==> !Escapes(old(free), head, level))
      ensures level == old(|heads|) ==> !inside
      ensures inside ==> Valid() && |heads| == old(|heads|) && View() == Release(old(View()), level, head)
      decreases |heads| - level, 1
    {
      hide *;
      if level == |heads| {
        return false;
      }
      ghost var before := Opened();
      // The block goes to the front of its list,
      MergeStarts(before, level, head, mem, heads);
      mem := mem[head := heads[level]];
      heads := heads[level := head];
      // and leaves it again with the first neighbour found on it.
      var last := head;
      var now := mem[last];
      var levelSize := PageSize(level);
      ghost var k := 0;
      WalkStart(before, level, head, now, mem, heads);
      if Touches(now, head, levelSize) {
        heads := heads[level := mem[now]];
        inside := Climb(head, now, level, before, 0);
        return;
      }
      while now != INVALID_MEM_ADDR
        invariant Walking(before, level, head, k, last, now) && (k == 0 ==> !Touches(now, head, levelSize))
        invariant Arena(begin, current, free, out) == before && end == before.End()
        invariant Pushed(before, level, head, mem, heads)
        decreases |before.free[level]| - k
      {
        WalkRound(before, level, head, k, last, now, mem, heads);
        if Touches(now, head, levelSize) {
          var tmp := mem[now];
          mem := mem[last := tmp];
          heads := heads[level := mem[head]];
          inside := Climb(head, now, level, before, k);
          return;
        }
        last := now;
        now := mem[now];
        k := k + 1;
      }
      MergeEnds(before, level, head, k, last, now, mem, heads);
      free, out := PushedHead(before, level, head), Take(before.out, level, head);
      Settled(Release(before, level, head));
      return true;
    }

    // A block comes back with a size of its class; `level` is where it was handed out.
    method FreeDataByPage(addr: nat, size: nat, ghost level: nat) returns (inside: bool)
      requires Valid() && PAGE_MAX_LEVELS <= |heads|
      requires level < PAGE_MAX_LEVELS && size <= PageSize(level)
      requires forall lower: nat :: lower < level ==> PageSize(lower) < size
      requires Has(out, level, addr)
      modifies this
      ensures inside <==> !Escapes(old(free), addr, level)
      ensures inside ==> Valid() && |heads| == old(|heads|) && View() == Release(old(View()), level, addr)
    {
      hide *;
      SizeOfLevel(size, level);
      var k := FindLevel(size);
      assert k == level;
      inside := MergePageLevel(addr, k);
    }
  }
}
