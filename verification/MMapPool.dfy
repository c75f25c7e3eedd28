// The pool over a mapped file: bump allocation, exact-size free lists, frees that are carried out later.
module MMapPools {
  import opened Bits
  import opened Bytes
  import opened PoolBlocks
  import opened PoolSpace
  import opened FreeListFile
  import opened FreeListDump

  const RESERVE: nat := 64

  datatype Outcome = Null | Address(addr: nat)

  class MMapPool {
    var begin: nat
    var used: nat            // the cursor, kept in the first word of the mapped file
    var storeSize: nat
    var minExpandSize: nat
    var useFreeList: bool
    var reuseTimegap: int
    var readOnly: bool
    var freeList: FreeList
    var userSpaceSize: nat
    var pending: seq<Block>  // frees handed to the delay thread and not yet carried out
    ghost var space: Space

    ghost predicate Valid()
      reads this
    {
      && Sound(space, freeList, userSpaceSize, begin + RESERVE, begin + used)
      && 0 < minExpandSize
      && pending == space.pending
    }

    lemma Opened()
      requires Valid()
      ensures Sound(space, freeList, userSpaceSize, begin + RESERVE, begin + used)
      ensures 0 < minExpandSize && pending == space.pending
    {
    }

    lemma Closed()
      requires Sound(space, freeList, userSpaceSize, begin + RESERVE, begin + used)
      requires 0 < minExpandSize && pending == space.pending
      ensures Valid()
    {
    }

    lemma ValidIff()
      requires 0 < minExpandSize && pending == space.pending
      ensures Valid() <==> Sound(space, freeList, userSpaceSize, begin + RESERVE, begin + used)
    {
    }

    function Data(): (data: nat)
      reads this
      ensures data == begin + RESERVE == begin + 64
    {
      begin + RESERVE
    }

    constructor Init(begin: nat, minExpandSize: nat, reuseTimegap: int, useFreeList: bool)
      requires 0 < minExpandSize
      ensures Valid() && this.begin == begin && used == 64 && space == Fresh
      ensures this.useFreeList == useFreeList && this.reuseTimegap == reuseTimegap && !readOnly
      ensures this.minExpandSize == minExpandSize
    {
      this.begin, used, storeSize, this.minExpandSize := begin, RESERVE, minExpandSize, minExpandSize;
      this.useFreeList, this.reuseTimegap, readOnly := useFreeList, reuseTimegap, false;
      freeList, userSpaceSize, pending := map[], 0, [];
      space := Fresh;
      FreshSound(begin + RESERVE);
    }

    // Opens an existing pool file: the cursor is in the file, the free list in a dumped file if there is one.
    // `held` and `lost` are the blocks in use and out of reach, as the file's owner knows them.
    constructor Reopen(begin: nat, used: nat, storeSize: nat, minExpandSize: nat, reuseTimegap: int, useFreeList: bool,
        readOnly: bool, found: bool, file: seq<byte>, ghost held: multiset<Block>, ghost lost: multiset<Block>)
      requires found ==> Complete(file)
      ensures this.begin == begin && this.used == used && this.minExpandSize == minExpandSize && pending == []
      ensures this.useFreeList == useFreeList && this.reuseTimegap == reuseTimegap && this.readOnly == readOnly
      ensures space == Space(held, [],
        if found then multiset(BlocksIn(file, begin + RESERVE, CountIn(file))) else multiset{}, lost)
      ensures Lists(freeList, space.free) && userSpaceSize == Total(space.free)
    {
      hide *;
      this.begin, this.used, this.storeSize, this.minExpandSize := begin, used, storeSize, minExpandSize;
      this.useFreeList, this.reuseTimegap, this.readOnly := useFreeList, reuseTimegap, readOnly;
      freeList, userSpaceSize, pending := map[], 0, [];
      space := Space(held, [], multiset{}, lost);
      EmptyLists();
      new;
      if found {
        LoadFreeList(file);
      }
    }

    method AllocFromFreeList(size: nat) returns (ret: Outcome)
      requires Valid()
      modifies this`freeList, this`userSpaceSize, this`space
      ensures Valid()
      ensures ret == Null <==> size !in old(freeList)
      ensures ret == Null ==> space == old(space) && freeList == old(freeList) && userSpaceSize == old(userSpaceSize)
      ensures ret.Address? ==>
        && Block(ret.addr, size) in old(space).free && Top(old(freeList)[size], ret.addr)
        && space == Reused(old(space), Block(ret.addr, size)) && userSpaceSize == old(userSpaceSize) - size
    {
      hide *;
      Opened();
      if size in freeList {
        NoListEmpty(space, freeList, userSpaceSize, begin + RESERVE, begin + used, size);
      }
      if size !in freeList || freeList[size] == multiset{} {
        return Null;
      }
      var addr := HighestAddress(freeList[size]);
      ReuseSound(space, freeList, userSpaceSize, begin + RESERVE, begin + used, Block(addr, size));
      freeList := Popped(freeList, Block(addr, size));
      userSpaceSize := userSpaceSize - size;
      space := Reused(space, Block(addr, size));
      Closed();
      return Address(addr);
    }

    // Expands the store by whole steps until the block fits below its end, and takes the block at the cursor.
    method AllocFromStore(size: nat) returns (ret: Outcome)
      requires Valid()
      modifies this`used, this`storeSize, this`space
      ensures Valid() && ret == Address(begin + old(used)) && used == old(used) + size
      ensures used < storeSize && old(storeSize) <= storeSize && (storeSize - old(storeSize)) % minExpandSize == 0
      ensures space == Extended(old(space), Block(begin + old(used), size))
      ensures storeSize == old(storeSize) || storeSize - minExpandSize <= used
    {
      hide *;
      Opened();
      ghost var chunks := 0;
      while used + size >= storeSize
        invariant used == old(used) && space == old(space)
        invariant storeSize == old(storeSize) + chunks * minExpandSize
        invariant chunks == 0 || storeSize - minExpandSize <= used + size
        decreases used + size - storeSize
      {
        storeSize := storeSize + minExpandSize;
        chunks := chunks + 1;
      }
      Multiple(chunks, minExpandSize);
      ExtendSound(space, freeList, userSpaceSize, begin + RESERVE, begin + used, size);
      ret := Address(begin + used);
      space := Extended(space, Block(begin + used, size));
      used := used + size;
      Closed();
    }

    // Allocation reuses a free block of exactly the size if there is one, the one with the highest address, and takes
    // a block at the cursor otherwise. It lies apart from every block in use and every block whose free is pending.
    method Alloc(size: nat) returns (ret: Outcome)
      requires Valid()
      modifies this`freeList, this`userSpaceSize, this`used, this`storeSize, this`space
      ensures Valid() && ret.Address? && begin + 64 <= ret.addr && Apart(Block(begin, 8), Block(ret.addr, size))
      ensures ClearOf(old(space).live + multiset(pending), Block(ret.addr, size))
      ensures if useFreeList && size in old(freeList) then
          && Top(old(freeList)[size], ret.addr) && Block(ret.addr, size) in old(space).free
          && space == Reused(old(space), Block(ret.addr, size))
          && used == old(used) && userSpaceSize == old(userSpaceSize) - size
        else
          && ret.addr == begin + old(used) && used == old(used) + size
          && space == Extended(old(space), Block(ret.addr, size))
          && freeList == old(freeList) && userSpaceSize == old(userSpaceSize)
    {
      hide *;
      Opened();
      ret := Null;
      if useFreeList {
        ret := AllocFromFreeList(size);
      }
      if ret == Null {
        ret := AllocFromStore(size);
      }
      Opened();
      SoundDivides(space, freeList, userSpaceSize, begin + RESERVE, begin + used);
      HandedOutClear(old(space), space, Block(ret.addr, size), begin + RESERVE, begin + used);
      BehindReserve(Block(ret.addr, size), begin);
    }

    // Frees a block in use, with the size it was allocated with: at once, or by the delay thread later.
    method Free(addr: nat, size: nat) returns (ok: bool)
      requires Valid() && Block(addr, size) in space.live && size < TWO32
      modifies this`freeList, this`userSpaceSize, this`pending, this`space
      ensures Valid() && ok
      ensures reuseTimegap > 0 ==>
        && space == Deferred(old(space), Block(addr, size))
        && freeList == old(freeList) && userSpaceSize == old(userSpaceSize)
      ensures reuseTimegap <= 0 ==>
        Freed(useFreeList, Dropped(old(space), Block(addr, size)), old(freeList), old(userSpaceSize), Block(addr, size),
          space, freeList, userSpaceSize)
    {
      hide *;
      Opened();
      var b := Block(addr, size);
      if reuseTimegap <= 0 {
        DropSound(space, freeList, userSpaceSize, begin + RESERVE, begin + used, b);
        space := Dropped(space, b);
        Closed();
        ok := DoFree(addr, size);
        return;
      }
      DeferSound(space, freeList, userSpaceSize, begin + RESERVE, begin + used, b);
      space, pending := Deferred(space, b), pending + [b];
      Closed();
      return true;
    }

    method SetFreeList(on: bool)
      requires Valid()
      modifies this`useFreeList
      ensures Valid() && useFreeList == on
    {
      useFreeList := on;
    }

    method SetReuseTimegap(gap: int)
      requires Valid()
      modifies this`reuseTimegap
      ensures Valid() && reuseTimegap == gap
    {
      reuseTimegap := gap;
    }

    // The delay thread carries out the oldest pending free.
    method RunDelayedFree()
      requires Valid() && pending != []
      modifies this`freeList, this`userSpaceSize, this`pending, this`space
      ensures Valid() && pending == old(pending)[1..]
      ensures old(space).pending == old(pending)
      ensures Freed(useFreeList, Due(old(space)), old(freeList), old(userSpaceSize), old(pending)[0],
        space, freeList, userSpaceSize)
    {
      hide *;
      Opened();
      var b := pending[0];
      DueSound(space, freeList, userSpaceSize, begin + RESERVE, begin + used);
      space, pending := Due(space), pending[1..];
      Closed();
      var _ := DoFree(b.addr, b.size);
    }

    // Puts a block that nobody uses any more on the free list of its size.
    method DoFree(addr: nat, size: nat) returns (ok: bool)
      requires Valid() && Block(addr, size) in space.dropped && size < TWO32
      modifies this`freeList, this`userSpaceSize, this`space
      ensures Valid() && ok
      ensures Freed(useFreeList, old(space), old(freeList), old(userSpaceSize), Block(addr, size),
        space, freeList, userSpaceSize)
    {
      hide *;
      Opened();
      NothingListed(space, freeList, userSpaceSize, Block(addr, size));
      if !useFreeList {
        return true;
      }
      ListSound(space, freeList, userSpaceSize, begin + RESERVE, begin + used, Block(addr, size));
      var block := Block(addr, Width32(size));
      NowListed(space, freeList, userSpaceSize, block);
      freeList := Pushed(freeList, block);
      userSpaceSize := userSpaceSize + block.size;
      space := Listed(space, block);
      Closed();
      return true;
    }

    // Writes the free list to a file and forgets it. An empty list, or a read-only pool, leaves the file alone.
    method DumpFreeList(oldFile: seq<byte>, stamp: Block -> nat) returns (file: seq<byte>)
      requires Valid()
      modifies this`freeList, this`userSpaceSize, this`space
      ensures Valid()
      ensures readOnly || old(userSpaceSize) == 0 ==>
        file == oldFile && freeList == old(freeList) && userSpaceSize == old(userSpaceSize) && space == old(space)
      ensures !readOnly && old(userSpaceSize) != 0 ==>
        && DumpOf(file, old(space).free, begin + RESERVE, stamp)
        && freeList == map[] && userSpaceSize == 0 && space == Forgotten(old(space))
    {
      hide *;
      Opened();
      file := oldFile;
      if readOnly || userSpaceSize == 0 {
        return;
      }
      ghost var blocks: seq<Block> := [];
      var lists, sizes := freeList, freeList.Keys;
      var size: nat, pos: nat := 0, COUNT_SIZE;
      var base := Data();
      ListedBehind(space, freeList, userSpaceSize, base, begin + used);
      DumpToStarts(file, lists, base, stamp);
      while sizes != {}
        invariant unchanged(this)
        invariant DumpingTo(file, freeList, lists, sizes, blocks, base, stamp, size, pos)
        decreases sizes
      {
        var s := LeastSize(sizes);
        DumpSizes(file, freeList, lists, sizes, blocks, base, stamp, size, pos);
        while lists[s] != multiset{}
          invariant unchanged(this)
          invariant s in lists && DumpingTo(file, freeList, lists, sizes, blocks, base, stamp, size, pos)
          decreases lists[s]
        {
          var addr := HighestAddress(lists[s]);
          var block := Block(addr, s);
          DumpRecord(file, freeList, lists, sizes, blocks, base, stamp, size, pos, block);
          size := size + 1;
          file := WriteAt(file, pos, RecordOf(block, base, stamp(block)));
          pos := pos + RECORD_SIZE;
          lists := lists[s := lists[s] - multiset{block.addr}];
          blocks := blocks + [block];
        }
        DumpToNext(file, freeList, lists, sizes, blocks, base, stamp, size, pos, s);
        sizes := sizes - {s};
      }
      SoundLists(space, freeList, userSpaceSize, base, begin + used);
      DumpToEnds(file, freeList, space.free, lists, blocks, base, stamp, size, pos);
      file := WriteAt(file, 0, Encoded(size, COUNT_SIZE));
      file := Truncated(file, COUNT_SIZE + size * RECORD_SIZE);
      ForgetFreeList();
    }

    // The end of a dump: what was listed is in the file only.
    method ForgetFreeList()
      requires Valid()
      modifies this`freeList, this`userSpaceSize, this`space
      ensures Valid() && freeList == map[] && userSpaceSize == 0 && space == Forgotten(old(space))
    {
      hide *;
      Opened();
      ForgetSound(space, freeList, userSpaceSize, begin + RESERVE, begin + used);
      freeList, userSpaceSize := map[], 0;
      space := Forgotten(space);
      Closed();
    }

    // Reads a dumped free list, its offsets relative to where this pool's data begins.
    method LoadFreeList(file: seq<byte>)
      requires Complete(file)
      modifies this`freeList, this`userSpaceSize, this`space
      ensures space == old(space).(free := multiset(BlocksIn(file, begin + RESERVE, CountIn(file))))
      ensures Lists(freeList, space.free) && userSpaceSize == old(userSpaceSize) + Total(space.free)
    {
      hide *;
      freeList := map[];
      ghost var free: multiset<Block> := multiset{};
      EmptyLists();
      var base := Data();
      NoBlocksIn(file, base);
      var size := CountIn(file);
      var pos := COUNT_SIZE;
      ghost var blocks: seq<Block> := [];
      for i := 0 to size
        invariant pos == COUNT_SIZE + RECORD_SIZE * i <= |file|
        invariant space == old(space)
        invariant blocks == BlocksIn(file, base, i) && free == multiset(blocks) && Lists(freeList, free)
        invariant userSpaceSize == old(userSpaceSize) + Total(free)
      {
        NextBlockIn(file, base, i);
        var block := BlockIn(file, base, pos);
        PushLists(freeList, free, block);
        TotalWith(free, block);
        freeList := Pushed(freeList, block);
        userSpaceSize := userSpaceSize + block.size;
        pos := pos + RECORD_SIZE;
        free, blocks := free + multiset{block}, blocks + [block];
      }
      space := space.(free := free);
    }
  }

  // The reserve is 64 bytes long, and the cursor kept in its first eight is on no block.
  lemma BehindReserve(b: Block, begin: nat)
    requires begin + RESERVE <= b.addr
    ensures begin + 64 <= b.addr && Apart(Block(begin, 8), b)
  {
  }

  lemma {:induction false} Multiple(k: nat, d: nat)
    requires 0 < d
    ensures k * d % d == 0
  {
    if k != 0 {
      Multiple(k - 1, d);
      assert k * d == (k - 1) * d + d;
      RemainderStep((k - 1) * d, d);
    }
  }

  lemma RemainderStep(x: nat, d: nat)
    requires 0 < d && x % d == 0
    ensures (x + d) % d == 0
  {
    assert x + d == d * (x / d + 1);
    RemainderUnique(x + d, d, x / d + 1, 0);
  }
}
