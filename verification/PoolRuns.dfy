// Every run of a pool - allocations, frees, delayed frees, changes of its settings, and closing and opening it at
// another address - against the space as offsets, which no change of address touches.
module PoolRuns {
  import opened Bytes
  import opened PoolBlocks
  import opened PoolSpace
  import opened PoolMoves
  import opened PoolReopen
  import opened FreeListFile
  import opened FreeListDump
  import opened MMapPools

  // Blocks are named by their offset from where the data begins. Reclaim: the delay thread carries out the oldest
  // pending free. Reopen: the pool is released, which carries out all pending frees, and its file is mapped again.
  datatype Op =
    | Allocate(size: nat)
    | Release(offset: nat, size: nat)
    | Reclaim
    | SetFreeList(on: bool)
    | SetReuseTimegap(gap: int)
    | Reopen(begin: nat)

  datatype Answer = Done | Offset(offset: nat)

  // All that the answers depend on: the space in offsets, the two settings, and whether a free list was ever dumped.
  datatype World = World(space: Space, listing: bool, gap: int, dumped: bool)

  // ---------- the specification ----------

  ghost predicate HasFree(free: multiset<Block>, size: nat) {
    exists b :: b in free && b.size == size
  }

  ghost predicate HighestFree(free: multiset<Block>, b: Block) {
    b in free && forall c :: c in free && c.size == b.size ==> c.addr <= b.addr
  }

  lemma {:induction false} HighestExists(free: multiset<Block>, size: nat)
    requires HasFree(free, size)
    ensures exists b: Block :: b.size == size && HighestFree(free, b)
    decreases |free|
  {
    var b :| b in free && b.size == size;
    var rest := free - multiset{b};
    if HasFree(rest, size) {
      HighestExists(rest, size);
      var t: Block :| t.size == size && HighestFree(rest, t);
      var top := if t.addr < b.addr then b else t;
      assert forall c :: c in free && c.size == size ==> c == b || c in rest;
      assert HighestFree(free, top) && top.size == size;
    } else {
      assert forall c :: c in free && c.size == size ==> c == b || c in rest;
      assert HighestFree(free, b);
    }
  }

  // Where an allocation goes: the highest free block of its size if the list is on and has one, else the end.
  ghost function Chosen(w: World, size: nat): (offset: nat)
    ensures w.listing && HasFree(w.space.free, size) ==> HighestFree(w.space.free, Block(offset, size))
  {
    if w.listing && HasFree(w.space.free, size) then
      HighestExists(w.space.free, size);
      var b: Block :| b.size == size && HighestFree(w.space.free, b);
      b.addr
    else Total(All(w.space))
  }

  ghost function AnswerOf(w: World, op: Op): Answer {
    if op.Allocate? then Offset(Chosen(w, op.size)) else Done
  }

  // A free that is carried out: the block is listed, or lost when the list is off.
  function Freeing(s: Space, listing: bool, b: Block): (t: Space)
    ensures t.pending == s.pending
  {
    if listing then Listed(s, b) else s
  }

  function Reclaimed(s: Space, listing: bool): (t: Space)
    requires s.pending != []
    ensures t.pending == s.pending[1..]
  {
    Freeing(Due(s), listing, s.pending[0])
  }

  // After all pending frees were carried out.
  function Drained(s: Space, listing: bool): (t: Space)
    ensures t.pending == []
    decreases |s.pending|
  {
    if s.pending == [] then s else Drained(Reclaimed(s, listing), listing)
  }

  ghost function WorldAfter(w: World, op: Op): World {
    match op
    case Allocate(size) =>
      var b := Block(Chosen(w, size), size);
      w.(space := if w.listing && HasFree(w.space.free, size) then Reused(w.space, b) else Extended(w.space, b))
    case Release(offset, size) =>
      var b := Block(offset, size);
      w.(space := if w.gap > 0 then Deferred(w.space, b) else Freeing(Dropped(w.space, b), w.listing, b))
    case Reclaim => if w.space.pending == [] then w else w.(space := Reclaimed(w.space, w.listing))
    case SetFreeList(on) => w.(listing := on)
    case SetReuseTimegap(gap) => w.(gap := gap)
    case Reopen(_) =>
      var d := Drained(w.space, w.listing);
      if Total(d.free) == 0 then w.(space := d.(free := multiset{})) else w.(space := d, dumped := true)
  }

  // What a run may ask for: to free what is in use, with its size, and not to close the pool with an empty list once
  // a list was dumped, since the old file would be loaded then. The address space bounds the rest.
  ghost predicate Legal(w: World, op: Op) {
    match op
    case Release(offset, size) => Block(offset, size) in w.space.live && size < TWO32
    case Reopen(_) =>
      var d := Drained(w.space, w.listing);
      && (w.dumped ==> Total(d.free) != 0)
      && RESERVE + Total(All(d)) < TWO64 && |d.free| < TWO64
    case _ => true
  }

  ghost predicate LegalRun(w: World, ops: seq<Op>)
    decreases |ops|
  {
    ops == [] || (Legal(w, ops[0]) && LegalRun(WorldAfter(w, ops[0]), ops[1..]))
  }

  ghost function WorldAfterAll(w: World, ops: seq<Op>): World
    decreases |ops|
  {
    if ops == [] then w else WorldAfterAll(WorldAfter(w, ops[0]), ops[1..])
  }

  ghost function Answers(w: World, ops: seq<Op>): seq<Answer>
    decreases |ops|
  {
    if ops == [] then [] else [AnswerOf(w, ops[0])] + Answers(WorldAfter(w, ops[0]), ops[1..])
  }

  // ---------- what every run keeps ----------

  // The blocks divide the space from its beginning on, without gap or overlap.
  ghost predicate Divided(s: Space) {
    Divides(All(s), 0, Total(All(s)))
  }

  lemma SameBlocks(s: Space, t: Space)
    requires Divided(s) && All(t) == All(s)
    ensures Divided(t)
  {
  }

  lemma FreeingKeeps(s: Space, listing: bool, b: Block)
    requires Divided(s) && b in s.dropped
    ensures Divided(Freeing(s, listing, b))
  {
    hide Divided;
    assert All(Listed(s, b)) == All(s);
    SameBlocks(s, Freeing(s, listing, b));
  }

  lemma DueKeeps(s: Space)
    requires s.pending != []
    ensures All(Due(s)) == All(s) && s.pending[0] in Due(s).dropped
  {
    assert s.pending == [s.pending[0]] + s.pending[1..];
    assert multiset(s.pending) == multiset{s.pending[0]} + multiset(s.pending[1..]);
  }

  lemma {:induction false} DrainedKeeps(s: Space, listing: bool)
    requires Divided(s)
    ensures Divided(Drained(s, listing))
    decreases |s.pending|
  {
    hide Divided;
    if s.pending != [] {
      DueKeeps(s);
      SameBlocks(s, Due(s));
      FreeingKeeps(Due(s), listing, s.pending[0]);
      DrainedKeeps(Reclaimed(s, listing), listing);
    }
  }

  lemma AllocateKeeps(w: World, size: nat)
    requires Divided(w.space)
    ensures Divided(WorldAfter(w, Allocate(size)).space)
  {
    hide Divided, All, Total;
    ChosenIs(w, size);
    var s, b := w.space, Block(Chosen(w, size), size);
    if w.listing && HasFree(s.free, size) {
      ReusedBlocks(s, b);
      SameBlocks(s, Reused(s, b));
    } else {
      ExtendedDivided(s, b);
    }
  }

  lemma ReusedBlocks(s: Space, b: Block)
    requires b in s.free
    ensures All(Reused(s, b)) == All(s)
  {
  }

  lemma ExtendedDivided(s: Space, b: Block)
    requires Divided(s) && b.addr == Total(All(s))
    ensures Divided(Extended(s, b))
  {
    hide Divides, Total;
    assert All(Extended(s, b)) == All(s) + multiset{b};
    TotalWith(All(s), b);
    GrowDivides(All(s), 0, Total(All(s)), b.size);
  }

  lemma ReleaseKeeps(w: World, b: Block)
    requires Divided(w.space) && b in w.space.live
    ensures Divided(WorldAfter(w, Release(b.addr, b.size)).space)
  {
    hide Divided;
    var s := w.space;
    assert All(Deferred(s, b)) == All(s);
    assert All(Dropped(s, b)) == All(s);
    if w.gap > 0 {
      SameBlocks(s, Deferred(s, b));
    } else {
      SameBlocks(s, Dropped(s, b));
      FreeingKeeps(Dropped(s, b), w.listing, b);
    }
  }

  lemma ReopenKeeps(s: Space)
    requires Divided(s) && s.pending == [] && Total(s.free) == 0
    ensures Divided(s.(free := multiset{}))
  {
    hide Divides, Total;
    var held := s.live + s.dropped;
    assert All(s) == held + s.free && All(s.(free := multiset{})) == held + multiset{};
    TotalOfBoth(held, s.free);
    EmptyLists();
    TotalOfBoth(held, multiset{});
    NothingAdded(s.free, held, multiset{}, 0, Total(All(s)));
  }

  lemma StepKeepsDivided(w: World, op: Op)
    requires Divided(w.space) && Legal(w, op)
    ensures Divided(WorldAfter(w, op).space)
  {
    hide Divided, Total, All;
    match op
    case Allocate(size) => AllocateKeeps(w, size);
    case Release(offset, size) => ReleaseKeeps(w, Block(offset, size));
    case Reclaim =>
      if w.space.pending != [] {
        DueKeeps(w.space);
        SameBlocks(w.space, Due(w.space));
        FreeingKeeps(Due(w.space), w.listing, w.space.pending[0]);
      }
    case SetFreeList(_) =>
    case SetReuseTimegap(_) =>
    case Reopen(_) =>
      DrainedKeeps(w.space, w.listing);
      if Total(Drained(w.space, w.listing).free) == 0 {
        ReopenKeeps(Drained(w.space, w.listing));
      }
  }

  // After every run the blocks in use, pending, free and lost divide the space; and what an allocation is answered then
  // overlaps no block in use and none whose free is pending.
  lemma {:induction false} RunKeepsDivided(w: World, ops: seq<Op>, size: nat)
    requires Divided(w.space) && LegalRun(w, ops)
    ensures var end := WorldAfterAll(w, ops);
      && Divided(end.space)
      && ClearOf(end.space.live + multiset(end.space.pending), Block(Chosen(end, size), size))
    decreases |ops|
  {
    hide Divided, WorldAfter, Legal, ClearOf, Chosen;
    if ops == [] {
      AllocateIsClear(w, size);
    } else {
      StepKeepsDivided(w, ops[0]);
      RunKeepsDivided(WorldAfter(w, ops[0]), ops[1..], size);
    }
  }

  lemma AllocateIsClear(w: World, size: nat)
    requires Divided(w.space)
    ensures ClearOf(w.space.live + multiset(w.space.pending), Block(Chosen(w, size), size))
  {
    hide Divides, Total, ClearOf;
    var after := WorldAfter(w, Allocate(size)).space;
    AllocateKeeps(w, size);
    HandedOutClear(w.space, after, Block(Chosen(w, size), size), 0, Total(All(after)));
  }

  // ---------- the pool against the specification ----------

  function Up(b: Block, base: nat): Block {
    Shifted(b, 0, base)
  }

  // t is s with every block at its address.
  ghost predicate Mirrors(s: Space, t: Space, base: nat) {
    && Moved(s.live, t.live, 0, base) && Moved(s.free, t.free, 0, base) && Moved(s.dropped, t.dropped, 0, base)
    && |t.pending| == |s.pending| && forall i :: 0 <= i < |s.pending| ==> t.pending[i] == Up(s.pending[i], base)
  }

  lemma FreshMirrors(base: nat)
    ensures Mirrors(Fresh, Fresh, base) && Divided(Fresh)
  {
    assert All(Fresh) == multiset{};
  }

  lemma InBoth(a: multiset<Block>, c: multiset<Block>, base: nat, b: Block)
    requires Moved(a, c, 0, base)
    ensures b in a <==> Up(b, base) in c
  {
    hide Total;
    assert c[Shifted(b, 0, base)] == a[b];
  }

  lemma ExtendedMirrors(s: Space, t: Space, base: nat, b: Block)
    requires Mirrors(s, t, base)
    ensures Mirrors(Extended(s, b), Extended(t, Up(b, base)), base)
  {
    hide Moved;
    MovedAdd(s.live, t.live, 0, base, b);
  }

  lemma ReusedMirrors(s: Space, t: Space, base: nat, b: Block)
    requires Mirrors(s, t, base) && b in s.free
    ensures Mirrors(Reused(s, b), Reused(t, Up(b, base)), base)
  {
    hide Moved;
    MovedAdd(s.live, t.live, 0, base, b);
    MovedTake(s.free, t.free, 0, base, b);
  }

  lemma DeferredMirrors(s: Space, t: Space, base: nat, b: Block)
    requires Mirrors(s, t, base) && b in s.live
    ensures Mirrors(Deferred(s, b), Deferred(t, Up(b, base)), base)
  {
    hide Moved;
    MovedTake(s.live, t.live, 0, base, b);
  }

  lemma DroppedMirrors(s: Space, t: Space, base: nat, b: Block)
    requires Mirrors(s, t, base) && b in s.live
    ensures Mirrors(Dropped(s, b), Dropped(t, Up(b, base)), base) && b in Dropped(s, b).dropped
  {
    hide Moved;
    MovedTake(s.live, t.live, 0, base, b);
    MovedAdd(s.dropped, t.dropped, 0, base, b);
  }

  lemma DueMirrors(s: Space, t: Space, base: nat)
    requires Mirrors(s, t, base) && s.pending != []
    ensures t.pending != [] && t.pending[0] == Up(s.pending[0], base)
    ensures Mirrors(Due(s), Due(t), base) && s.pending[0] in Due(s).dropped
  {
    hide Moved;
    MovedAdd(s.dropped, t.dropped, 0, base, s.pending[0]);
  }

  lemma FreeingMirrors(s: Space, t: Space, base: nat, listing: bool, b: Block)
    requires Mirrors(s, t, base) && b in s.dropped
    ensures Mirrors(Freeing(s, listing, b), Freeing(t, listing, Up(b, base)), base)
  {
    hide Moved;
    MovedAdd(s.free, t.free, 0, base, b);
    MovedTake(s.dropped, t.dropped, 0, base, b);
  }

  lemma PendingMoves(s: Space, t: Space, base: nat)
    requires Mirrors(s, t, base)
    ensures Moved(multiset(s.pending), multiset(t.pending), 0, base)
  {
    hide Moved;
    assert AllBehind(s.pending, 0);
    assert t.pending == AllShifted(s.pending, 0, base);
    ShiftMoves(s.pending, 0, base);
  }

  lemma AllMoves(s: Space, t: Space, base: nat)
    requires Mirrors(s, t, base)
    ensures Moved(All(s), All(t), 0, base) && Total(All(s)) == Total(All(t))
  {
    hide Moved;
    PendingMoves(s, t, base);
    MovedBoth(s.live, multiset(s.pending), t.live, multiset(t.pending), 0, base);
    MovedBoth(s.live + multiset(s.pending), s.free, t.live + multiset(t.pending), t.free, 0, base);
    MovedBoth(s.live + multiset(s.pending) + s.free, s.dropped,
      t.live + multiset(t.pending) + t.free, t.dropped, 0, base);
    MovedTotal(All(s), All(t), 0, base);
  }

  lemma FreeInBoth(s: Space, t: Space, base: nat, size: nat)
    requires Mirrors(s, t, base)
    ensures HasFree(s.free, size) <==> HasFree(t.free, size)
  {
    hide Total;
    if HasFree(s.free, size) {
      var b :| b in s.free && b.size == size;
      InBoth(s.free, t.free, base, b);
    }
    if HasFree(t.free, size) {
      var c :| c in t.free && c.size == size;
      MovedBack(s.free, t.free, 0, base, c);
    }
  }

  lemma ListedSizes(t: Space, lists: FreeList, size: nat)
    requires Lists(lists, t.free)
    ensures size in lists <==> HasFree(t.free, size)
  {
    if size in lists {
      var addr :| addr in lists[size];
      assert t.free[Block(addr, size)] == Count(lists, Block(addr, size));
      assert Block(addr, size) in t.free;
    }
    if HasFree(t.free, size) {
      var b :| b in t.free && b.size == size;
      assert t.free[b] == Count(lists, b);
    }
  }

  // The address on top of a free list is the one of the block the specification chooses.
  lemma TopIsChosen(s: Space, t: Space, base: nat, lists: FreeList, b: Block, addr: nat)
    requires Mirrors(s, t, base) && Lists(lists, t.free) && HighestFree(s.free, b)
    requires b.size in lists && Top(lists[b.size], addr) && Block(addr, b.size) in t.free
    ensures addr == base + b.addr
  {
    hide Total;
    var c := Block(addr, b.size);
    MovedBack(s.free, t.free, 0, base, c);
    assert Shifted(c, base, 0) in s.free;
    InBoth(s.free, t.free, base, b);
    assert t.free[Up(b, base)] == Count(lists, Up(b, base));
  }

  lemma AllocMirrors(w: World, t: Space, base: nat, lists: FreeList, total: nat, used: nat, size: nat, addr: nat,
      after: Space)
    requires Mirrors(w.space, t, base) && Sound(t, lists, total, base, used)
    requires if w.listing && size in lists
      then Top(lists[size], addr) && Block(addr, size) in t.free && after == Reused(t, Block(addr, size))
      else addr == used && after == Extended(t, Block(addr, size))
    ensures addr == base + Chosen(w, size)
    ensures Mirrors(WorldAfter(w, Allocate(size)).space, after, base)
  {
    hide *;
    var s := w.space;
    SoundLists(t, lists, total, base, used);
    SoundTotal(t, lists, total, base, used);
    FreeInBoth(s, t, base, size);
    ListedSizes(t, lists, size);
    AllMoves(s, t, base);
    ChosenIs(w, size);
    var b := Block(Chosen(w, size), size);
    UpIs(b, base);
    if w.listing && size in lists {
      TopIsChosen(s, t, base, lists, b, addr);
      ReusedMirrors(s, t, base, b);
    } else {
      ExtendedMirrors(s, t, base, b);
    }
  }

  lemma UpIs(b: Block, base: nat)
    ensures Up(b, base) == Block(base + b.addr, b.size)
  {
  }

  lemma ChosenIs(w: World, size: nat)
    ensures var b := Block(Chosen(w, size), size); var v := WorldAfter(w, Allocate(size)).space;
      if w.listing && HasFree(w.space.free, size)
      then v == Reused(w.space, b) && HighestFree(w.space.free, b) && b in w.space.free
      else v == Extended(w.space, b) && b.addr == Total(All(w.space))
  {
    hide Total, All;
  }

  lemma SoundTotal(t: Space, lists: FreeList, total: nat, lo: nat, hi: nat)
    requires Sound(t, lists, total, lo, hi)
    ensures hi == lo + Total(All(t))
  {
  }

  lemma ReleaseMirrors(w: World, t: Space, base: nat, b: Block, lists: FreeList, total: nat,
      after: Space, listsAfter: FreeList, totalAfter: nat)
    requires Mirrors(w.space, t, base) && b in w.space.live
    requires w.gap > 0 ==> after == Deferred(t, Up(b, base))
    requires w.gap <= 0 ==>
      Freed(w.listing, Dropped(t, Up(b, base)), lists, total, Up(b, base), after, listsAfter, totalAfter)
    ensures Mirrors(WorldAfter(w, Release(b.addr, b.size)).space, after, base)
  {
    hide Mirrors;
    if w.gap > 0 {
      DeferredMirrors(w.space, t, base, b);
    } else {
      DroppedMirrors(w.space, t, base, b);
      FreeingMirrors(Dropped(w.space, b), Dropped(t, Up(b, base)), base, w.listing, b);
    }
  }

  lemma ReclaimMirrors(s: Space, t: Space, base: nat, listing: bool, lists: FreeList, total: nat,
      after: Space, listsAfter: FreeList, totalAfter: nat)
    requires Mirrors(s, t, base) && s.pending != [] && t.pending != []
    requires Freed(listing, Due(t), lists, total, t.pending[0], after, listsAfter, totalAfter)
    ensures Mirrors(Reclaimed(s, listing), after, base)
  {
    hide Mirrors;
    DueMirrors(s, t, base);
    FreeingMirrors(Due(s), Due(t), base, listing, s.pending[0]);
  }

  lemma LiveMirrors(s: Space, t: Space, base: nat, b: Block)
    requires Mirrors(s, t, base) && b in s.live
    ensures Up(b, base) in t.live && Up(b, base) == Block(base + b.addr, b.size)
  {
    InBoth(s.live, t.live, base, b);
  }

  // The space of a pool that was reopened at another base, in offsets as before.
  lemma ReopenMirrors(d: Space, t: Space, base: nat, r: Space, to: nat, keeps: bool)
    requires Mirrors(d, t, base) && d.pending == [] && r.pending == []
    requires Moved(t.live, r.live, base, to) && Moved(t.dropped, r.dropped, base, to)
    requires if keeps then Moved(t.free, r.free, base, to) else r.free == multiset{}
    ensures Mirrors(if keeps then d else d.(free := multiset{}), r, to)
  {
    hide Moved, Total;
    MovedTwice(d.live, t.live, r.live, 0, base, to);
    MovedTwice(d.dropped, t.dropped, r.dropped, 0, base, to);
    if keeps {
      MovedTwice(d.free, t.free, r.free, 0, base, to);
    } else {
      EmptyMoves(0, to);
    }
  }

  lemma EmptyMoves(from: nat, to: nat)
    ensures Moved(multiset{}, multiset{}, from, to)
  {
  }

  lemma SizesOf(d: Space, t: Space, base: nat, lists: FreeList, total: nat, used: nat)
    requires Mirrors(d, t, base) && Sound(t, lists, total, base, used)
    ensures used == base + Total(All(d)) && total == Total(d.free) && |t.free| == |d.free|
  {
    hide Divides, Lists, Total, Moved;
    SoundTotal(t, lists, total, base, used);
    AllMoves(d, t, base);
    MovedTotal(d.free, t.free, 0, base);
    MovedCount(d.free, t.free, 0, base);
  }

  // ---------- running the pool ----------

  // The pool and its dumped file as a run meets them.
  ghost predicate Stands(p: MMapPool, w: World, found: bool, file: seq<byte>)
    reads p
  {
    && p.Valid() && !p.readOnly
    && Mirrors(w.space, p.space, p.begin + RESERVE)
    && p.useFreeList == w.listing && p.reuseTimegap == w.gap
    && found == w.dumped && (found ==> Complete(file))
  }

  lemma StandsIs(p: MMapPool, w: World, found: bool, file: seq<byte>)
    requires Stands(p, w, found, file)
    ensures p.Valid() && !p.readOnly && Mirrors(w.space, p.space, p.begin + RESERVE)
    ensures p.useFreeList == w.listing && p.reuseTimegap == w.gap && found == w.dumped && (found ==> Complete(file))
    ensures Sound(p.space, p.freeList, p.userSpaceSize, p.begin + RESERVE, p.begin + p.used)
    ensures p.pending == p.space.pending && (w.space.pending == [] <==> p.pending == [])
    ensures |w.space.pending| == |p.pending|
  {
  }

  lemma NowStands(p: MMapPool, w: World, found: bool, file: seq<byte>)
    requires p.Valid() && !p.readOnly && Mirrors(w.space, p.space, p.begin + RESERVE)
    requires p.useFreeList == w.listing && p.reuseTimegap == w.gap && found == w.dumped && (found ==> Complete(file))
    ensures Stands(p, w, found, file)
  {
  }

  method Allocated(p: MMapPool, ghost w: World, size: nat, ghost found: bool, ghost file: seq<byte>)
      returns (answer: Answer)
    requires Stands(p, w, found, file)
    modifies p
    ensures Stands(p, WorldAfter(w, Allocate(size)), found, file) && answer == AnswerOf(w, Allocate(size))
  {
    hide *;
    StandsIs(p, w, found, file);
    ghost var t, lists, total, hi := p.space, p.freeList, p.userSpaceSize, p.begin + p.used;
    var ret := p.Alloc(size);
    AllocMirrors(w, t, p.begin + RESERVE, lists, total, hi, size, ret.addr, p.space);
    AllocateIs(w, size);
    answer := Offset(ret.addr - (p.begin + RESERVE));
    NowStands(p, WorldAfter(w, Allocate(size)), found, file);
  }

  lemma AllocateIs(w: World, size: nat)
    ensures AnswerOf(w, Allocate(size)) == Offset(Chosen(w, size))
    ensures var v := WorldAfter(w, Allocate(size)); v == w.(space := v.space)
  {
  }

  method Released(p: MMapPool, ghost w: World, b: Block, ghost found: bool, ghost file: seq<byte>)
    requires Stands(p, w, found, file) && Legal(w, Release(b.addr, b.size))
    modifies p
    ensures Stands(p, WorldAfter(w, Release(b.addr, b.size)), found, file)
  {
    hide *;
    StandsIs(p, w, found, file);
    ReleaseIs(w, b);
    ghost var t, lists, total, base := p.space, p.freeList, p.userSpaceSize, p.begin + RESERVE;
    LiveMirrors(w.space, t, base, b);
    var data := p.Data();
    var _ := p.Free(data + b.addr, b.size);
    ReleaseMirrors(w, t, base, b, lists, total, p.space, p.freeList, p.userSpaceSize);
    NowStands(p, WorldAfter(w, Release(b.addr, b.size)), found, file);
  }

  lemma ReleaseIs(w: World, b: Block)
    requires Legal(w, Release(b.addr, b.size))
    ensures b in w.space.live && b.size < TWO32
    ensures var v := WorldAfter(w, Release(b.addr, b.size)); v == w.(space := v.space)
  {
  }

  method ReclaimedOne(p: MMapPool, ghost w: World, ghost found: bool, ghost file: seq<byte>)
    requires Stands(p, w, found, file) && w.space.pending != [] && p.pending != []
    modifies p
    ensures Stands(p, w.(space := Reclaimed(w.space, w.listing)), found, file) && p.begin == old(p.begin)
  {
    hide *;
    StandsIs(p, w, found, file);
    ghost var t, lists, total, base := p.space, p.freeList, p.userSpaceSize, p.begin + RESERVE;
    p.RunDelayedFree();
    ReclaimMirrors(w.space, t, base, w.listing, lists, total, p.space, p.freeList, p.userSpaceSize);
    NowStands(p, w.(space := Reclaimed(w.space, w.listing)), found, file);
  }

  // Releasing a pool waits for the delay thread to carry out everything that is pending.
  method Drain(p: MMapPool, ghost w: World, ghost found: bool, ghost file: seq<byte>)
    requires Stands(p, w, found, file)
    modifies p
    ensures Stands(p, w.(space := Drained(w.space, w.listing)), found, file)
    ensures p.begin == old(p.begin) && p.pending == []
  {
    hide *;
    ghost var v := w;
    StandsIs(p, v, found, file);
    while p.pending != []
      invariant Stands(p, v, found, file) && p.begin == old(p.begin)
      invariant v == w.(space := v.space) && |p.pending| == |v.space.pending|
      invariant Drained(v.space, w.listing) == Drained(w.space, w.listing)
      decreases |p.pending|
    {
      DrainOne(v.space, w.listing);
      ReclaimedOne(p, v, found, file);
      v := v.(space := Reclaimed(v.space, w.listing));
      StandsIs(p, v, found, file);
    }
    NothingToDrain(v.space, w.listing);
  }

  lemma DrainOne(s: Space, listing: bool)
    requires s.pending != []
    ensures Drained(s, listing) == Drained(Reclaimed(s, listing), listing)
    ensures |Reclaimed(s, listing).pending| < |s.pending|
  {
  }

  lemma NothingToDrain(s: Space, listing: bool)
    requires s.pending == []
    ensures Drained(s, listing) == s
  {
  }

  method Reopened(p: MMapPool, ghost w: World, begin: nat, found: bool, file: seq<byte>)
      returns (q: MMapPool, nowFound: bool, nowFile: seq<byte>)
    requires Stands(p, w, found, file) && Legal(w, Reopen(begin))
    modifies p
    ensures fresh(q) && Stands(q, WorldAfter(w, Reopen(begin)), nowFound, nowFile)
  {
    hide *;
    Drain(p, w, found, file);
    ghost var d := Drained(w.space, w.listing);
    ghost var v := w.(space := d);
    StandsIs(p, v, found, file);
    ghost var t, base := p.space, p.begin + RESERVE;
    SizesOf(d, t, base, p.freeList, p.userSpaceSize, p.begin + p.used);
    ReopenIs(w, begin);
    var keeps := p.userSpaceSize != 0;
    q, nowFile := CloseAndReopen(p, found, file, b => 0, begin);
    nowFound := found || keeps;
    if !keeps {
      NothingLoaded(file, base, base + Total(All(d)), begin + RESERVE);
    }
    QuietAfter(q);
    ReopenMirrors(d, t, base, q.space, begin + RESERVE, keeps);
    NowStands(q, WorldAfter(w, Reopen(begin)), nowFound, nowFile);
  }

  lemma QuietAfter(q: MMapPool)
    requires q.Valid()
    ensures q.space.pending == q.pending
  {
  }

  lemma NothingLoaded(file: seq<byte>, base: nat, hi: nat, to: nat)
    ensures Loaded(false, file, to) == multiset{} && ListsNothing(Loaded(false, file, base), hi)
  {
  }

  lemma ReopenIs(w: World, begin: nat)
    requires Legal(w, Reopen(begin))
    ensures var d := Drained(w.space, w.listing);
      && (w.dumped ==> Total(d.free) != 0) && RESERVE + Total(All(d)) < TWO64 && |d.free| < TWO64
      && WorldAfter(w, Reopen(begin)) ==
           if Total(d.free) == 0 then w.(space := d.(free := multiset{})) else w.(space := d, dumped := true)
  {
  }

  method Apply(p: MMapPool, ghost w: World, op: Op, found: bool, file: seq<byte>)
      returns (answer: Answer, q: MMapPool, nowFound: bool, nowFile: seq<byte>)
    requires Stands(p, w, found, file) && Legal(w, op)
    modifies p
    ensures (q == p || fresh(q)) && Stands(q, WorldAfter(w, op), nowFound, nowFile) && answer == AnswerOf(w, op)
  {
    hide *;
    StandsIs(p, w, found, file);
    OpIs(w, op);
    answer, q, nowFound, nowFile := Done, p, found, file;
    match op
    case Allocate(size) => answer := Allocated(p, w, size, found, file);
    case Release(offset, size) => Released(p, w, Block(offset, size), found, file);
    case Reclaim =>
      if p.pending != [] {
        ReclaimedOne(p, w, found, file);
      }
    case SetFreeList(on) =>
      p.SetFreeList(on);
      NowStands(p, w.(listing := on), found, file);
    case SetReuseTimegap(gap) =>
      p.SetReuseTimegap(gap);
      NowStands(p, w.(gap := gap), found, file);
    case Reopen(begin) =>
      q, nowFound, nowFile := Reopened(p, w, begin, found, file);
  }

  lemma OpIs(w: World, op: Op)
    ensures !op.Allocate? ==> AnswerOf(w, op) == Done
    ensures op.SetFreeList? ==> WorldAfter(w, op) == w.(listing := op.on)
    ensures op.SetReuseTimegap? ==> WorldAfter(w, op) == w.(gap := op.gap)
    ensures op.Reclaim? && w.space.pending == [] ==> WorldAfter(w, op) == w
    ensures op.Reclaim? && w.space.pending != [] ==>
      WorldAfter(w, op) == w.(space := Reclaimed(w.space, w.listing))
  {
  }

  // Every run of a new pool gives the answers of the specification, wherever the file is mapped in between; and at the
  // end the cursor and the accounting are what the blocks add up to.
  method Replay(begin: nat, minExpandSize: nat, gap: int, listing: bool, ops: seq<Op>)
      returns (answers: seq<Answer>, used: nat, userSpaceSize: nat)
    requires 0 < minExpandSize && LegalRun(World(Fresh, listing, gap, false), ops)
    ensures answers == Answers(World(Fresh, listing, gap, false), ops)
    ensures var s := WorldAfterAll(World(Fresh, listing, gap, false), ops).space;
      used == RESERVE + Total(All(s)) && userSpaceSize == Total(s.free)
  {
    hide *;
    var p := new MMapPool.Init(begin, minExpandSize, gap, listing);
    var found, file := false, [];
    answers := [];
    ghost var start := World(Fresh, listing, gap, false);
    ghost var w := start;
    FreshMirrors(begin + RESERVE);
    NowStands(p, w, found, file);
    RunStarts(start, ops);
    for i := 0 to |ops|
      invariant fresh(p) && Stands(p, w, found, file) && RunSoFar(start, ops, i, w, answers)
    {
      RunNext(start, ops, i, w, answers);
      var answer;
      answer, p, found, file := Apply(p, w, ops[i], found, file);
      w := WorldAfter(w, ops[i]);
      answers := answers + [answer];
    }
    RunEnds(start, ops, w, answers);
    StandsIs(p, w, found, file);
    SizesOf(w.space, p.space, p.begin + RESERVE, p.freeList, p.userSpaceSize, p.begin + p.used);
    used, userSpaceSize := p.used, p.userSpaceSize;
  }

  // The answers so far, and those still due from the world reached, make up the answers to the whole run.
  ghost predicate RunSoFar(start: World, ops: seq<Op>, i: nat, w: World, answers: seq<Answer>) {
    && i <= |ops| && LegalRun(w, ops[i..])
    && answers + Answers(w, ops[i..]) == Answers(start, ops)
    && WorldAfterAll(w, ops[i..]) == WorldAfterAll(start, ops)
  }

  lemma RunStarts(start: World, ops: seq<Op>)
    requires LegalRun(start, ops)
    ensures RunSoFar(start, ops, 0, start, [])
  {
    assert ops[0..] == ops;
  }

  lemma RunNext(start: World, ops: seq<Op>, i: nat, w: World, answers: seq<Answer>)
    requires i < |ops| && RunSoFar(start, ops, i, w, answers)
    ensures Legal(w, ops[i]) && RunSoFar(start, ops, i + 1, WorldAfter(w, ops[i]), answers + [AnswerOf(w, ops[i])])
  {
    hide Legal, WorldAfter, AnswerOf;
    assert ops[i..][0] == ops[i] && ops[i..][1..] == ops[i + 1..];
  }

  lemma RunEnds(start: World, ops: seq<Op>, w: World, answers: seq<Answer>)
    requires RunSoFar(start, ops, |ops|, w, answers)
    ensures answers == Answers(start, ops) && w == WorldAfterAll(start, ops)
  {
    assert ops[|ops|..] == [];
  }
}
