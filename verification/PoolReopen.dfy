// Closing a pool and opening its file again, mapped at another address: the free list goes through a file.
module PoolReopen {
  import opened Bytes
  import opened PoolBlocks
  import opened PoolSpace
  import opened FreeListFile
  import opened FreeListDump
  import opened PoolMoves
  import opened MMapPools

  // ---------- the round trip through the file ----------

  // A dumped list, loaded at another base: the same blocks size by size, moved by the difference of the bases. The
  // file holds 8 bytes and 16 for each block.
  lemma DumpedThenLoaded(free: multiset<Block>, file: seq<byte>, from: nat, to: nat, stamp: Block -> nat)
    requires DumpOf(file, free, from, stamp) && |free| < TWO64
    requires forall b :: b in free ==> Storable(b, from)
    ensures Complete(file) && CountIn(file) == |free| && |file| == COUNT_SIZE + RECORD_SIZE * |free|
    ensures Moved(free, multiset(BlocksIn(file, to, CountIn(file))), from, to)
  {
    hide FileOf, BlocksIn, CountIn, Complete, Moved, Storable;
    var blocks :|
      && AllBehind(blocks, from) && DumpOrder(blocks)
      && multiset(blocks) == free && file == FileOf(blocks, from, stamp);
    assert |multiset(blocks)| == |blocks|;
    forall i | 0 <= i < |blocks|
      ensures Storable(blocks[i], from)
    {
      assert blocks[i] in multiset(blocks);
    }
    FileRoundTrip(blocks, from, to, stamp);
    assert BlocksIn(file, to, |blocks|) == AllShifted(blocks, from, to);
    ShiftMoves(blocks, from, to);
  }

  lemma FreeIsStorable(s: Space, lists: FreeList, total: nat, lo: nat, hi: nat)
    requires Sound(s, lists, total, lo, hi) && hi - lo < TWO64
    ensures forall b :: b in s.free ==> Storable(b, lo)
    ensures forall b :: b in s.live ==> lo <= b.addr
    ensures forall b :: b in s.dropped ==> lo <= b.addr
  {
    hide Total, Covered, Lists;
    forall b | b in s.free || b in s.live || b in s.dropped
      ensures b in All(s)
    {
    }
  }

  lemma FreeSizes(s: Space)
    requires s.pending == []
    ensures SizesFit(s.free + multiset(s.pending)) <==> SizesFit(s.free)
  {
    assert s.free + multiset(s.pending) == s.free;
  }

  // The whole space after a reopening: sound again behind the new base.
  lemma ReopenedSound(s: Space, lists: FreeList, total: nat, lo: nat, hi: nat, to: nat, r: Space, newLists: FreeList)
    requires Sound(s, lists, total, lo, hi) && s.pending == [] && r.pending == []
    requires Moved(s.live, r.live, lo, to) && Moved(s.free, r.free, lo, to) && Moved(s.dropped, r.dropped, lo, to)
    requires Lists(newLists, r.free)
    ensures Sound(r, newLists, total, to, to + hi - lo) && Total(r.free) == total
  {
    hide Divides, Lists, Total, Moved, SizesFit;
    MovedBoth(s.live, s.free, r.live, r.free, lo, to);
    MovedBoth(s.live + s.free, s.dropped, r.live + r.free, r.dropped, lo, to);
    assert All(s) == s.live + s.free + s.dropped;
    assert All(r) == r.live + r.free + r.dropped;
    SoundDivides(s, lists, total, lo, hi);
    MovedDivides(All(s), All(r), lo, hi, to);
    FreeSizes(s);
    FreeSizes(r);
    MovedSizes(s.free, r.free, lo, to);
    MovedTotal(s.free, r.free, lo, to);
  }

  // ---------- the file that is left alone ----------

  // What an opening loads: the blocks that the dumped file lists, or nothing without a file.
  ghost function Loaded(found: bool, file: seq<byte>, base: nat): multiset<Block>
    requires found ==> Complete(file)
  {
    if found then multiset(BlocksIn(file, base, CountIn(file))) else multiset{}
  }

  lemma {:induction false} BlocksInMove(file: seq<byte>, from: nat, to: nat, k: nat)
    requires COUNT_SIZE + RECORD_SIZE * k <= |file|
    ensures AllBehind(BlocksIn(file, from, k), from)
    ensures BlocksIn(file, to, k) == AllShifted(BlocksIn(file, from, k), from, to)
  {
    if k != 0 {
      BlocksInMove(file, from, to, k - 1);
    }
  }

  // Read at another base, a file lists the same blocks, moved.
  lemma LoadedMoves(found: bool, file: seq<byte>, from: nat, to: nat)
    requires found ==> Complete(file)
    ensures Moved(Loaded(found, file, from), Loaded(found, file, to), from, to)
  {
    if found {
      BlocksInMove(file, from, to, CountIn(file));
      ShiftMoves(BlocksIn(file, from, CountIn(file)), from, to);
    }
  }

  // No block in use overlaps a listed one.
  ghost predicate Clear(live: multiset<Block>, listed: multiset<Block>) {
    forall c :: c in listed ==> ClearOf(live, c)
  }

  // Every byte of the space that is listed lies in a block that nobody uses.
  ghost predicate ListsUnused(listed: multiset<Block>, unused: multiset<Block>, lo: nat, hi: nat) {
    forall c, x: nat :: c in listed && lo <= x < hi && Holds(c, x) ==> Covered(unused, x)
  }

  // The file lists no space: only empty blocks, inside.
  ghost predicate ListsNothing(listed: multiset<Block>, hi: nat) {
    forall c :: c in listed ==> c.size == 0 && c.addr <= hi
  }

  lemma Overlap(b: Block, c: Block) returns (x: nat)
    requires !Apart(b, c) && 0 < b.size && 0 < c.size
    ensures Holds(b, x) && Holds(c, x)
  {
    x := if b.addr < c.addr then c.addr else b.addr;
  }

  lemma UsedOrUnused(s: Space, lo: nat, hi: nat, b: Block, d: Block, x: nat)
    requires Divides(All(s), lo, hi) && b in s.live && d in s.free + s.dropped && Holds(b, x)
    ensures !Holds(d, x)
  {
    hide Covered, Total;
    assert b in All(s) && d in All(s);
    assert All(s)[b] >= s.live[b] + (s.free + s.dropped)[b];
  }

  // In a divided space the listed blocks keep clear of those in use exactly when they list what nobody uses.
  lemma ClearIffUnused(s: Space, listed: multiset<Block>, lo: nat, hi: nat)
    requires Divides(All(s), lo, hi) && s.pending == []
    ensures Clear(s.live, listed) <==> ListsUnused(listed, s.free + s.dropped, lo, hi)
  {
    hide Total, Covered;
    if ListsUnused(listed, s.free + s.dropped, lo, hi) {
      forall b, c | b in s.live && c in listed && 0 < b.size && 0 < c.size
        ensures Apart(b, c)
      {
        if !Apart(b, c) {
          var x := Overlap(b, c);
          assert b in All(s);
          var d := CoveredBy(s.free + s.dropped, x);
          UsedOrUnused(s, lo, hi, b, d, x);
        }
      }
    }
    if Clear(s.live, listed) {
      forall c, x: nat | c in listed && lo <= x < hi && Holds(c, x)
        ensures Covered(s.free + s.dropped, x)
      {
        var d := CoveredBy(All(s), x);
        assert d in s.live ==> Apart(d, c);
        CoverIs(s.free + s.dropped, d, x);
      }
    }
  }

  lemma CoveredBy(blocks: multiset<Block>, x: nat) returns (d: Block)
    requires Covered(blocks, x)
    ensures d in blocks && Holds(d, x)
  {
    d :| d in blocks && Holds(d, x);
  }

  lemma CoverIs(blocks: multiset<Block>, d: Block, x: nat)
    requires Holds(d, x)
    ensures d in blocks ==> Covered(blocks, x)
  {
  }

  lemma ClearMoves(live: multiset<Block>, listed: multiset<Block>, movedLive: multiset<Block>,
      movedListed: multiset<Block>, from: nat, to: nat)
    requires Moved(live, movedLive, from, to) && Moved(listed, movedListed, from, to)
    ensures Clear(live, listed) ==> Clear(movedLive, movedListed)
  {
    hide Total;
    if Clear(live, listed) {
      forall b, c | b in movedLive && c in movedListed && 0 < b.size && 0 < c.size
        ensures Apart(b, c)
      {
        MovedBack(live, movedLive, from, to, b);
        MovedBack(listed, movedListed, from, to, c);
        assert Apart(Shifted(b, to, from), Shifted(c, to, from));
      }
    }
  }

  lemma ClearMovesIff(live: multiset<Block>, listed: multiset<Block>, movedLive: multiset<Block>,
      movedListed: multiset<Block>, from: nat, to: nat)
    requires Moved(live, movedLive, from, to) && Moved(listed, movedListed, from, to)
    ensures Clear(live, listed) <==> Clear(movedLive, movedListed)
  {
    hide Moved, Clear;
    ClearMoves(live, listed, movedLive, movedListed, from, to);
    MovedHome(live, movedLive, from, to);
    MovedHome(listed, movedListed, from, to);
    ClearMoves(movedLive, movedListed, live, listed, to, from);
  }

  lemma NoSpace(blocks: multiset<Block>, c: Block)
    requires Total(blocks) == 0 && c in blocks
    ensures c.size == 0
  {
    TotalWithout(blocks, c);
  }

  lemma {:induction false} OnlyEmpty(blocks: multiset<Block>)
    requires forall c :: c in blocks ==> c.size == 0
    ensures Total(blocks) == 0
    decreases |blocks|
  {
    if blocks != multiset{} {
      var b :| b in blocks;
      TotalWithout(blocks, b);
      OnlyEmpty(blocks - multiset{b});
    }
  }

  // With no space on the free list, the blocks in use and lost divide the space together with the loaded ones exactly
  // when the file lists no space.
  lemma DividesIffNothing(s: Space, listed: multiset<Block>, lo: nat, hi: nat)
    requires Divides(All(s), lo, hi) && s.pending == [] && Total(s.free) == 0
    ensures Divides(s.live + listed + s.dropped, lo, hi) <==>
      ListsNothing(listed, hi) && forall c :: c in listed ==> lo <= c.addr
  {
    hide Covered, Total, Holds, Apart;
    var held := s.live + s.dropped;
    var after := s.live + listed + s.dropped;
    assert All(s) == held + s.free && after == held + listed;
    TotalOfBoth(held, s.free);
    TotalOfBoth(held, listed);
    if Divides(after, lo, hi) {
      forall c | c in listed
        ensures c.size == 0 && lo <= c.addr <= hi
      {
        NoSpace(listed, c);
        assert c in after;
      }
    }
    if ListsNothing(listed, hi) && forall c :: c in listed ==> lo <= c.addr {
      OnlyEmpty(listed);
      NothingAdded(s.free, held, listed, lo, hi);
    }
  }

  // Exchanging empty blocks for empty blocks keeps a division.
  lemma NothingAdded(less: multiset<Block>, held: multiset<Block>, more: multiset<Block>, lo: nat, hi: nat)
    requires Divides(held + less, lo, hi) && Total(less) == 0
    requires forall c :: c in more ==> c.size == 0 && lo <= c.addr <= hi
    requires Total(held + more) == Total(held + less)
    ensures Divides(held + more, lo, hi)
  {
    hide Total, Apart;
    forall c | c in less
      ensures c.size == 0
    {
      NoSpace(less, c);
    }
    assert forall c :: c in held ==> c in held + less && c in held + more;
    assert forall c :: c in held + more && 0 < c.size ==> c in held;
    forall c | c in held + more && 0 < c.size
      ensures (held + more)[c] == 1
    {
      assert (held + more)[c] == held[c] && (held + less)[c] == held[c];
    }
    forall x: nat | lo <= x < hi
      ensures Covered(held + more, x)
    {
      assert Covered(held + less, x);
      var d :| d in held + less && Holds(d, x);
      assert d in held;
    }
  }

  // With an empty free list, an opening at another base is sound exactly when the file that was left alone lists no
  // space.
  lemma EmptyListReopens(s: Space, lists: FreeList, total: nat, lo: nat, hi: nat, listed: multiset<Block>, to: nat,
      r: Space, newLists: FreeList)
    requires Sound(s, lists, total, lo, hi) && s.pending == [] && total == 0 && r.pending == []
    requires Moved(s.live, r.live, lo, to) && Moved(listed, r.free, lo, to) && Moved(s.dropped, r.dropped, lo, to)
    requires Lists(newLists, r.free)
    ensures Sound(r, newLists, Total(r.free), to, to + hi - lo) <==> ListsNothing(listed, hi)
  {
    hide Divides, Lists, Total, Moved;
    MovedBoth(s.live, listed, r.live, r.free, lo, to);
    MovedBoth(s.live + listed, s.dropped, r.live + r.free, r.dropped, lo, to);
    assert All(r) == r.live + r.free + r.dropped;
    SoundDivides(s, lists, total, lo, hi);
    SoundLists(s, lists, total, lo, hi);
    DividesIffNothing(s, listed, lo, hi);
    BehindBase(listed, r.free, lo, to);
    var before, after := s.live + listed + s.dropped, r.live + r.free + r.dropped;
    if Divides(before, lo, hi) {
      MovedDivides(before, after, lo, hi, to);
      MovedSizes(listed, r.free, lo, to);
    }
    MovedHome(before, after, lo, to);
    if Divides(after, to, to + hi - lo) {
      MovedDivides(after, before, to, to + hi - lo, lo);
    }
  }

  lemma BehindBase(before: multiset<Block>, after: multiset<Block>, from: nat, to: nat)
    requires Moved(before, after, from, to)
    ensures forall c :: c in before ==> from <= c.addr
  {
  }

  // ---------- closing and opening ----------

  // Release of a pool, then Init with its file mapped anywhere. With something on the free list the new pool is sound,
  // with the same blocks free, in use and lost, all moved, and the accounting restored. With an empty list, or in a
  // read-only pool, the dump leaves an older file alone, and the new pool lists what that file says. An empty list
  // makes a sound pool if and only if the file lists no space. In either case the new list keeps clear of every block
  // in use if and only if what the file lists was free or lost when the pool was closed.
  method CloseAndReopen(p: MMapPool, found: bool, oldFile: seq<byte>, stamp: Block -> nat, newBegin: nat)
      returns (q: MMapPool, file: seq<byte>)
    requires p.Valid() && p.pending == [] && (found ==> Complete(oldFile))
    requires p.used < TWO64 && |p.space.free| < TWO64
    modifies p
    ensures fresh(q) && q.begin == newBegin && q.used == p.used == old(p.used) && q.pending == []
    ensures p.begin == old(p.begin)
    ensures q.useFreeList == p.useFreeList == old(p.useFreeList) && q.readOnly == p.readOnly == old(p.readOnly)
    ensures q.reuseTimegap == p.reuseTimegap == old(p.reuseTimegap)
    ensures Moved(old(p.space).live, q.space.live, p.begin + RESERVE, newBegin + RESERVE)
    ensures Moved(old(p.space).dropped, q.space.dropped, p.begin + RESERVE, newBegin + RESERVE)
    ensures p.readOnly || old(p.userSpaceSize) == 0 ==> file == oldFile
    ensures !p.readOnly && old(p.userSpaceSize) != 0 ==>
      && Complete(file) && q.Valid() && q.userSpaceSize == old(p.userSpaceSize)
      && Moved(old(p.space).free, q.space.free, p.begin + RESERVE, newBegin + RESERVE)
    ensures p.readOnly || old(p.userSpaceSize) == 0 ==>
      && q.space.free == Loaded(found, oldFile, newBegin + RESERVE) && q.userSpaceSize == Total(q.space.free)
      && (Clear(q.space.live, q.space.free) <==>
            ListsUnused(Loaded(found, oldFile, p.begin + RESERVE), old(p.space).free + old(p.space).dropped,
              p.begin + RESERVE, p.begin + p.used))
    ensures old(p.userSpaceSize) == 0 ==>
      (q.Valid() <==> ListsNothing(Loaded(found, oldFile, p.begin + RESERVE), p.begin + p.used))
    ensures p.readOnly && Loaded(found, oldFile, p.begin + RESERVE) == old(p.space).free ==> q.Valid()
  {
    hide *;
    p.Opened();
    ghost var s, lists, total := p.space, p.freeList, p.userSpaceSize;
    ghost var lo, hi, to := p.begin + RESERVE, p.begin + p.used, newBegin + RESERVE;
    SoundDivides(s, lists, total, lo, hi);
    ReserveIs();
    FreeIsStorable(s, lists, total, lo, hi);
    MovedExists(s.live, lo, to);
    MovedExists(s.dropped, lo, to);
    ghost var held, lost :| Moved(s.live, held, lo, to) && Moved(s.dropped, lost, lo, to);
    var dumps := !p.readOnly && p.userSpaceSize != 0;
    file := p.DumpFreeList(oldFile, stamp);
    if dumps {
      DumpedThenLoaded(s.free, file, lo, to, stamp);
    }
    q := new MMapPool.Reopen(newBegin, p.used, p.storeSize, p.minExpandSize, p.reuseTimegap, p.useFreeList,
      p.readOnly, dumps || found, file, held, lost);
    if dumps {
      ReopenedSound(s, lists, total, lo, hi, to, q.space, q.freeList);
      q.Closed();
    } else {
      LoadedIs(found, oldFile, to);
      LeftAlone(s, lists, total, lo, hi, found, oldFile, to, q.space, q.freeList);
      q.ValidIff();
    }
  }

  // What an opening makes of a file that the closing left alone.
  lemma LeftAlone(s: Space, lists: FreeList, total: nat, lo: nat, hi: nat, found: bool, file: seq<byte>, to: nat,
      r: Space, newLists: FreeList)
    requires Sound(s, lists, total, lo, hi) && s.pending == [] && r.pending == [] && (found ==> Complete(file))
    requires Moved(s.live, r.live, lo, to) && Moved(s.dropped, r.dropped, lo, to) && r.free == Loaded(found, file, to)
    requires Lists(newLists, r.free)
    ensures var listed := Loaded(found, file, lo);
      && (Clear(r.live, r.free) <==> ListsUnused(listed, s.free + s.dropped, lo, hi))
      && (total == 0 ==> (Sound(r, newLists, Total(r.free), to, to + hi - lo) <==> ListsNothing(listed, hi)))
      && (listed == s.free ==> Sound(r, newLists, Total(r.free), to, to + hi - lo))
  {
    hide *;
    var listed := Loaded(found, file, lo);
    LoadedMoves(found, file, lo, to);
    SoundDivides(s, lists, total, lo, hi);
    ClearIffUnused(s, listed, lo, hi);
    ClearMovesIff(s.live, listed, r.live, r.free, lo, to);
    if total == 0 {
      EmptyListReopens(s, lists, total, lo, hi, listed, to, r, newLists);
    }
    if listed == s.free {
      ReopenedSound(s, lists, total, lo, hi, to, r, newLists);
    }
  }

  lemma LoadedIs(found: bool, file: seq<byte>, base: nat)
    requires found ==> Complete(file)
    ensures Loaded(found, file, base) == if found then multiset(BlocksIn(file, base, CountIn(file))) else multiset{}
  {
  }

  lemma ReserveIs()
    ensures RESERVE < TWO64
  {
  }
}
