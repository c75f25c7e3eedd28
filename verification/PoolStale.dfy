// A run in which an old free-list file outlives the list it was written from.
module PoolStale {
  import opened Bytes
  import opened PoolBlocks
  import opened PoolSpace
  import opened FreeListFile
  import opened FreeListDump
  import opened PoolMoves
  import opened PoolReopen
  import opened MMapPools

  lemma MovedNowhere(before: multiset<Block>, after: multiset<Block>, base: nat)
    requires Moved(before, after, base, base)
    ensures after == before
  {
    hide Total;
    forall c
      ensures after[c] == before[c]
    {
      if base <= c.addr {
        assert c == Shifted(c, base, base);
      }
    }
  }

  // A file that lists one block, read where it was written.
  lemma OneBlockFile(b: Block, file: seq<byte>, base: nat, stamp: Block -> nat)
    requires DumpOf(file, multiset{b}, base, stamp) && Storable(b, base)
    ensures Complete(file) && multiset(BlocksIn(file, base, CountIn(file))) == multiset{b}
  {
    hide DumpOf, Complete, BlocksIn, CountIn;
    DumpedThenLoaded(multiset{b}, file, base, base, stamp);
    MovedNowhere(multiset{b}, multiset(BlocksIn(file, base, CountIn(file))), base);
  }

  lemma ListedIsFree(lists: FreeList, free: multiset<Block>, size: nat)
    requires Lists(lists, free) && size in lists
    ensures exists b :: b in free && b.size == size
  {
    var addr :| addr in lists[size];
    assert free[Block(addr, size)] == Count(lists, Block(addr, size));
    assert Block(addr, size) in free;
  }

  lemma NothingFree(s: Space, lists: FreeList, total: nat, lo: nat, hi: nat, size: nat)
    requires Sound(s, lists, total, lo, hi) && s.free == multiset{}
    ensures size !in lists
  {
    hide Divides, Total, Lists;
    if size in lists {
      ListedIsFree(lists, s.free, size);
    }
  }

  lemma OneFree(s: Space, lists: FreeList, total: nat, lo: nat, hi: nat, b: Block)
    requires Sound(s, lists, total, lo, hi) && s.free == multiset{b}
    ensures total == b.size && b.size in lists
    ensures forall addr :: Top(lists[b.size], addr) ==> addr == b.addr
  {
    hide Divides;
    TotalWithout(s.free, b);
    assert s.free[b] == Count(lists, b);
    forall addr | Top(lists[b.size], addr)
      ensures addr == b.addr
    {
      assert s.free[Block(addr, b.size)] == Count(lists, Block(addr, b.size));
    }
  }

  lemma SameSound(s: Space, lists: FreeList, total: nat, other: FreeList, lo: nat, hi: nat)
    requires Sound(s, lists, total, lo, hi) && Lists(other, s.free)
    ensures Sound(s, other, total, lo, hi) && total == Total(s.free)
  {
  }

  lemma UsedAndFree(s: Space, lists: FreeList, total: nat, lo: nat, hi: nat, b: Block)
    requires Sound(s, lists, total, lo, hi) && b in s.free && 0 < b.size
    ensures b !in s.live
  {
    hide Total, Covered, Lists, SizesFit;
    assert All(s)[b] <= 1;
  }

  // A new pool from which a block of eight bytes was taken and freed again.
  method OneFreed(begin: nat) returns (p: MMapPool, addr: nat)
    ensures fresh(p) && p.Valid() && p.begin == begin && !p.readOnly && p.useFreeList && p.minExpandSize == 1024
    ensures addr == begin + RESERVE && p.space == Space(multiset{}, [], multiset{Block(addr, 8)}, multiset{})
    ensures p.userSpaceSize == 8
  {
    hide Divides, Lists, Total, Top, Pushed, Popped, Sound, ClearOf;
    p := new MMapPool.Init(begin, 1024, 0, true);
    NothingFree(p.space, p.freeList, p.userSpaceSize, begin + RESERVE, begin + p.used, 8);
    var a := p.Alloc(8);
    addr := begin + RESERVE;
    assert p.space.live == multiset{Block(addr, 8)};
    var _ := p.Free(a.addr, 8);
    assert p.space == Space(multiset{}, [], multiset{Block(addr, 8)}, multiset{});
    OneFree(p.space, p.freeList, p.userSpaceSize, begin + RESERVE, begin + p.used, Block(addr, 8));
  }

  // A run that goes wrong: free a block, close, open, take the block again, close with an empty list, open. The
  // block is in use and on the free list, next in line for an allocation of its size.
  method StaleListRun(begin: nat, stamp: Block -> nat) returns (r: MMapPool, addr: nat)
    ensures fresh(r) && addr == begin + RESERVE
    ensures r.space.live == multiset{Block(addr, 8)} && r.space.free == multiset{Block(addr, 8)}
    ensures r.userSpaceSize == 8 && Lists(r.freeList, r.space.free) && !r.Valid()
  {
    hide Divides, Lists, Total, Top, DumpOf, Complete, BlocksIn, CountIn, Pushed, Popped, Sound, ClearOf;
    var p, first := OneFreed(begin);
    var b := Block(first, 8);
    ghost var s, lists := p.space, p.freeList;
    var file := p.DumpFreeList([], stamp);
    OneBlockFile(b, file, begin + RESERVE, stamp);
    var q := new MMapPool.Reopen(begin, p.used, p.storeSize, 1024, 0, true, false, true, file, multiset{}, multiset{});
    SameSound(s, lists, 8, q.freeList, begin + RESERVE, begin + q.used);
    OneFree(s, q.freeList, q.userSpaceSize, begin + RESERVE, begin + q.used, b);
    var c := q.Alloc(8);
    assert q.space == Space(multiset{b}, [], multiset{}, multiset{});
    file := q.DumpFreeList(file, stamp);
    r := new MMapPool.Reopen(begin, q.used, q.storeSize, 1024, 0, true, false, true, file, multiset{b}, multiset{});
    addr := c.addr;
    if r.Valid() {
      UsedAndFree(r.space, r.freeList, r.userSpaceSize, begin + RESERVE, begin + r.used, b);
    }
  }
}
