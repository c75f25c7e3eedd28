// The order in which a free list is dumped, and the counts of blocks under a change of base.
module FreeListDump {
  import opened Bytes
  import opened PoolBlocks
  import opened FreeListFile

  // Sizes rise, and within a size addresses fall: the map's order and the priority queue's.
  predicate Before(b: Block, c: Block) {
    b.size < c.size || (b.size == c.size && c.addr <= b.addr)
  }

  predicate DumpOrder(blocks: seq<Block>) {
    forall i, j :: 0 <= i < j < |blocks| ==> Before(blocks[i], blocks[j])
  }

  // The dump in progress: what was written and what is still listed make up the original lists; sizes outside
  // `sizes` are finished; everything written comes before everything still listed.
  ghost predicate Dumping(whole: FreeList, lists: FreeList, sizes: set<nat>, blocks: seq<Block>) {
    && sizes <= lists.Keys
    && (forall b :: multiset(blocks)[b] + Count(lists, b) == Count(whole, b))
    && (forall s :: s in lists && s !in sizes ==> lists[s] == multiset{})
    && DumpOrder(blocks)
    && (forall i, b :: 0 <= i < |blocks| && 0 < Count(lists, b) ==> Before(blocks[i], b))
  }

  lemma DumpStarts(lists: FreeList)
    ensures Dumping(lists, lists, lists.Keys, [])
  {
  }

  lemma DumpPop(whole: FreeList, lists: FreeList, sizes: set<nat>, blocks: seq<Block>, size: nat, addr: nat)
    requires Dumping(whole, lists, sizes, blocks) && Least(sizes, size) && size in lists && Top(lists[size], addr)
    ensures Dumping(whole, lists[size := lists[size] - multiset{addr}], sizes, blocks + [Block(addr, size)])
    ensures 0 < Count(whole, Block(addr, size))
  {
    var b := Block(addr, size);
    var after := lists[size := lists[size] - multiset{addr}];
    assert 0 < Count(lists, b);
    forall c
      ensures multiset(blocks + [b])[c] + Count(after, c) == Count(whole, c)
      ensures 0 < Count(after, c) ==> 0 < Count(lists, c) && Before(b, c)
    {
      assert multiset(blocks)[c] + Count(lists, c) == Count(whole, c);
      if 0 < Count(after, c) && c.size == size {
        assert c.addr in lists[size];
      }
    }
  }

  lemma DumpNext(whole: FreeList, lists: FreeList, sizes: set<nat>, blocks: seq<Block>, size: nat)
    requires Dumping(whole, lists, sizes, blocks) && size in sizes && size in lists && lists[size] == multiset{}
    ensures Dumping(whole, lists, sizes - {size}, blocks)
  {
  }

  lemma DumpEnds(whole: FreeList, free: multiset<Block>, lists: FreeList, blocks: seq<Block>)
    requires Lists(whole, free) && Dumping(whole, lists, {}, blocks)
    ensures multiset(blocks) == free && DumpOrder(blocks)
  {
    forall b
      ensures multiset(blocks)[b] == free[b]
    {
      assert free[b] == Count(whole, b);
      assert multiset(blocks)[b] + Count(lists, b) == Count(whole, b);
    }
  }

  lemma DumpSizes(file: seq<byte>, whole: FreeList, lists: FreeList, sizes: set<nat>, blocks: seq<Block>,
      base: nat, stamp: Block -> nat, size: nat, pos: nat)
    requires DumpingTo(file, whole, lists, sizes, blocks, base, stamp, size, pos)
    ensures sizes <= lists.Keys
  {
  }

  ghost predicate Behind(lists: FreeList, base: nat) {
    forall b: Block :: 0 < Count(lists, b) ==> base <= b.addr
  }

  lemma PoppedBehind(lists: FreeList, base: nat, b: Block)
    requires Behind(lists, base) && 0 < Count(lists, b)
    ensures base <= b.addr
  {
  }

  // The file lists exactly the free blocks, sizes rising and addresses falling.
  ghost predicate DumpOf(file: seq<byte>, free: multiset<Block>, base: nat, stamp: Block -> nat) {
    exists blocks ::
      && AllBehind(blocks, base) && DumpOrder(blocks)
      && multiset(blocks) == free && file == FileOf(blocks, base, stamp)
  }

  // A dump in progress, with the file: `size` records written, the next one due at `pos`.
  ghost predicate DumpingTo(file: seq<byte>, whole: FreeList, lists: FreeList, sizes: set<nat>, blocks: seq<Block>,
      base: nat, stamp: Block -> nat, size: nat, pos: nat) {
    && Dumping(whole, lists, sizes, blocks)
    && size == |blocks| && pos == COUNT_SIZE + RECORD_SIZE * size
    && AllBehind(blocks, base) && Written(file, blocks, base, stamp)
  }

  lemma DumpToStarts(file: seq<byte>, lists: FreeList, base: nat, stamp: Block -> nat)
    ensures DumpingTo(file, lists, lists, lists.Keys, [], base, stamp, 0, COUNT_SIZE)
  {
    hide Dumping, Written;
    DumpStarts(lists);
    NothingWritten(file, base, stamp);
  }

  lemma DumpRecord(file: seq<byte>, whole: FreeList, lists: FreeList, sizes: set<nat>, blocks: seq<Block>,
      base: nat, stamp: Block -> nat, size: nat, pos: nat, b: Block)
    requires DumpingTo(file, whole, lists, sizes, blocks, base, stamp, size, pos)
    requires Behind(whole, base) && Least(sizes, b.size) && b.size in lists && Top(lists[b.size], b.addr)
    ensures base <= b.addr
    ensures DumpingTo(WriteAt(file, pos, RecordOf(b, base, stamp(b))), whole,
      lists[b.size := lists[b.size] - multiset{b.addr}], sizes, blocks + [b], base, stamp, size + 1, pos + RECORD_SIZE)
  {
    hide Written, RecordOf, WriteAt, Dumping;
    DumpPop(whole, lists, sizes, blocks, b.size, b.addr);
    PoppedBehind(whole, base, b);
    WriteRecord(file, blocks, base, stamp, b);
  }

  lemma DumpToNext(file: seq<byte>, whole: FreeList, lists: FreeList, sizes: set<nat>, blocks: seq<Block>,
      base: nat, stamp: Block -> nat, size: nat, pos: nat, s: nat)
    requires DumpingTo(file, whole, lists, sizes, blocks, base, stamp, size, pos)
    requires s in sizes && s in lists && lists[s] == multiset{}
    ensures DumpingTo(file, whole, lists, sizes - {s}, blocks, base, stamp, size, pos)
  {
    hide Written, Dumping;
    DumpNext(whole, lists, sizes, blocks, s);
  }

  lemma DumpToEnds(file: seq<byte>, whole: FreeList, free: multiset<Block>, lists: FreeList, blocks: seq<Block>,
      base: nat, stamp: Block -> nat, size: nat, pos: nat)
    requires DumpingTo(file, whole, lists, {}, blocks, base, stamp, size, pos) && Lists(whole, free)
    ensures DumpOf(Truncated(WriteAt(file, 0, Encoded(size, COUNT_SIZE)), COUNT_SIZE + size * RECORD_SIZE),
      free, base, stamp)
  {
    hide Written, Dumping, WriteAt, Truncated, Encoded, FileOf, Lists;
    DumpEnds(whole, free, lists, blocks);
    WriteCount(file, blocks, base, stamp);
  }

  // ---------- the loaded list against the dumped one ----------

  function AllShifted(blocks: seq<Block>, from: nat, to: nat): (shifted: seq<Block>)
    requires AllBehind(blocks, from)
    ensures |shifted| == |blocks|
    ensures forall i :: 0 <= i < |blocks| ==> shifted[i] == Shifted(blocks[i], from, to)
  {
    seq(|blocks|, i requires 0 <= i < |blocks| => Shifted(blocks[i], from, to))
  }

  lemma FrontBehind(blocks: seq<Block>, base: nat)
    requires AllBehind(blocks, base) && blocks != []
    ensures AllBehind(blocks[..|blocks| - 1], base) && base <= blocks[|blocks| - 1].addr
    ensures blocks == blocks[..|blocks| - 1] + [blocks[|blocks| - 1]]
  {
  }

  // Shifting keeps the multiplicity of every block.
  lemma {:induction false} ShiftKeepsCount(blocks: seq<Block>, from: nat, to: nat, b: Block)
    requires AllBehind(blocks, from) && from <= b.addr
    ensures multiset(AllShifted(blocks, from, to))[Shifted(b, from, to)] == multiset(blocks)[b]
  {
    if blocks != [] {
      var front, last := blocks[..|blocks| - 1], blocks[|blocks| - 1];
      FrontBehind(blocks, from);
      ShiftKeepsCount(front, from, to, b);
      ShiftedFront(blocks, from, to);
      assert multiset(blocks) == multiset(front) + multiset{last};
    } else {
      assert AllShifted(blocks, from, to) == [];
    }
  }

  lemma ShiftedFront(blocks: seq<Block>, from: nat, to: nat)
    requires blocks != [] && AllBehind(blocks, from)
    ensures AllBehind(blocks[..|blocks| - 1], from)
    ensures multiset(AllShifted(blocks, from, to))
      == multiset(AllShifted(blocks[..|blocks| - 1], from, to)) + multiset{Shifted(blocks[|blocks| - 1], from, to)}
  {
    var front, last := blocks[..|blocks| - 1], blocks[|blocks| - 1];
    assert AllShifted(blocks, from, to) == AllShifted(front, from, to) + [Shifted(last, from, to)];
  }

  lemma {:induction false} ShiftKeepsTotal(blocks: seq<Block>, from: nat, to: nat)
    requires AllBehind(blocks, from)
    ensures Total(multiset(AllShifted(blocks, from, to))) == Total(multiset(blocks))
  {
    hide Total;
    if blocks != [] {
      var front, last := blocks[..|blocks| - 1], blocks[|blocks| - 1];
      FrontBehind(blocks, from);
      ShiftKeepsTotal(front, from, to);
      ShiftedFront(blocks, from, to);
      assert multiset(blocks) == multiset(front) + multiset{last};
      TotalWith(multiset(front), last);
      TotalWith(multiset(AllShifted(front, from, to)), Shifted(last, from, to));
    } else {
      assert AllShifted(blocks, from, to) == [];
    }
  }
}
