// The state of a pool's space as a value: which blocks are in use, awaiting their free, listed, or out of reach.
module PoolSpace {
  import opened PoolBlocks
  import opened FreeListFile
  import opened FreeListDump

  // dropped: blocks neither in use nor listed, because they were freed with the list off or went to a dump file.
  datatype Space = Space(live: multiset<Block>, pending: seq<Block>, free: multiset<Block>, dropped: multiset<Block>)

  ghost function All(s: Space): multiset<Block> {
    s.live + multiset(s.pending) + s.free + s.dropped
  }

  const Fresh: Space := Space(multiset{}, [], multiset{}, multiset{})

  // A block's size field has 32 bits.
  function Width32(size: nat): nat {
    size % TWO32
  }

  // ---------- steps ----------

  function Extended(s: Space, b: Block): (t: Space)
    ensures t.pending == s.pending
  {
    s.(live := s.live + multiset{b})
  }

  function Reused(s: Space, b: Block): (t: Space)
    ensures t.pending == s.pending
  {
    s.(free := s.free - multiset{b}, live := s.live + multiset{b})
  }

  function Deferred(s: Space, b: Block): (t: Space)
    ensures t.pending == s.pending + [b]
  {
    s.(live := s.live - multiset{b}, pending := s.pending + [b])
  }

  function Dropped(s: Space, b: Block): (t: Space)
    ensures t.pending == s.pending
  {
    s.(live := s.live - multiset{b}, dropped := s.dropped + multiset{b})
  }

  // The oldest pending free falls due.
  function Due(s: Space): (t: Space)
    requires s.pending != []
    ensures t.pending == s.pending[1..]
  {
    s.(pending := s.pending[1..], dropped := s.dropped + multiset{s.pending[0]})
  }

  function Listed(s: Space, b: Block): (t: Space)
    ensures t.pending == s.pending
  {
    s.(dropped := s.dropped - multiset{b}, free := s.free + multiset{b})
  }

  // What freeing a block that is in no one's use leads to: it goes on the free list, or nowhere when the list is off.
  ghost predicate Freed(listing: bool, s: Space, lists: FreeList, total: nat, b: Block,
      after: Space, listsAfter: FreeList, totalAfter: nat) {
    if listing then after == Listed(s, b) && listsAfter == Pushed(lists, b) && totalAfter == total + b.size
    else after == s && listsAfter == lists && totalAfter == total
  }

  lemma NothingListed(s: Space, lists: FreeList, total: nat, b: Block)
    ensures Freed(false, s, lists, total, b, s, lists, total)
  {
  }

  lemma NowListed(s: Space, lists: FreeList, total: nat, b: Block)
    ensures Freed(true, s, lists, total, b, Listed(s, b), Pushed(lists, b), total + b.size)
  {
  }

  function Forgotten(s: Space): (t: Space)
    ensures t.pending == s.pending
  {
    s.(free := multiset{}, dropped := s.dropped + s.free)
  }

  // ---------- what every step keeps ----------

  ghost predicate SizesFit(blocks: multiset<Block>) {
    forall b :: b in blocks ==> b.size < TWO32
  }

  // The blocks divide the space behind the reserve, the free list holds the free ones, and the sizes of those and of
  // the ones about to be freed fit their field.
  ghost predicate Sound(s: Space, lists: FreeList, total: nat, lo: nat, hi: nat) {
    && Divides(All(s), lo, hi)
    && SizesFit(s.free + multiset(s.pending))
    && Lists(lists, s.free)
    && total == Total(s.free)
  }

  lemma FreshSound(lo: nat)
    ensures Sound(Fresh, map[], 0, lo, lo)
  {
    EmptyLists();
    assert All(Fresh) == multiset{};
  }

  lemma ExtendSound(s: Space, lists: FreeList, total: nat, lo: nat, hi: nat, size: nat)
    requires Sound(s, lists, total, lo, hi)
    ensures Sound(Extended(s, Block(hi, size)), lists, total, lo, hi + size)
  {
    hide Divides, Lists, Total;
    GrowDivides(All(s), lo, hi, size);
    assert All(Extended(s, Block(hi, size))) == All(s) + multiset{Block(hi, size)};
  }

  lemma ReuseSound(s: Space, lists: FreeList, total: nat, lo: nat, hi: nat, b: Block)
    requires Sound(s, lists, total, lo, hi) && b.size in lists && b.addr in lists[b.size]
    ensures b in s.free && b.size <= total
    ensures Sound(Reused(s, b), Popped(lists, b), total - b.size, lo, hi)
  {
    hide Divides, Lists, Total, Popped;
    PopLists(lists, s.free, b);
    TotalWithout(s.free, b);
    assert All(Reused(s, b)) == All(s);
  }

  lemma DeferSound(s: Space, lists: FreeList, total: nat, lo: nat, hi: nat, b: Block)
    requires Sound(s, lists, total, lo, hi) && b in s.live && b.size < TWO32
    ensures Sound(Deferred(s, b), lists, total, lo, hi)
  {
    hide Divides, Lists, Total;
    assert All(Deferred(s, b)) == All(s);
  }

  lemma DropSound(s: Space, lists: FreeList, total: nat, lo: nat, hi: nat, b: Block)
    requires Sound(s, lists, total, lo, hi) && b in s.live
    ensures Sound(Dropped(s, b), lists, total, lo, hi) && b in Dropped(s, b).dropped
  {
    hide Divides, Lists, Total;
    assert All(Dropped(s, b)) == All(s);
  }

  lemma DueSound(s: Space, lists: FreeList, total: nat, lo: nat, hi: nat)
    requires Sound(s, lists, total, lo, hi) && s.pending != []
    ensures Sound(Due(s), lists, total, lo, hi) && s.pending[0] in Due(s).dropped && s.pending[0].size < TWO32
  {
    hide Divides, Lists, Total;
    assert s.pending == [s.pending[0]] + s.pending[1..];
    assert multiset(s.pending) == multiset{s.pending[0]} + multiset(s.pending[1..]);
    assert All(Due(s)) == All(s);
  }

  lemma ListSound(s: Space, lists: FreeList, total: nat, lo: nat, hi: nat, b: Block)
    requires Sound(s, lists, total, lo, hi) && b in s.dropped && b.size < TWO32
    ensures b.size == Width32(b.size) && lo <= b.addr
    ensures Sound(Listed(s, b), Pushed(lists, b), total + b.size, lo, hi)
  {
    hide Lists, Total, Pushed, Covered;
    PushLists(lists, s.free, b);
    TotalWith(s.free, b);
    assert b in All(s);
    assert All(Listed(s, b)) == All(s);
  }

  lemma ForgetSound(s: Space, lists: FreeList, total: nat, lo: nat, hi: nat)
    requires Sound(s, lists, total, lo, hi)
    ensures Sound(Forgotten(s), map[], 0, lo, hi)
  {
    hide Divides, Lists, Total;
    EmptyLists();
    assert All(Forgotten(s)) == All(s);
  }

  lemma SoundDivides(s: Space, lists: FreeList, total: nat, lo: nat, hi: nat)
    requires Sound(s, lists, total, lo, hi)
    ensures Divides(All(s), lo, hi) && lo <= hi
  {
  }

  lemma SoundLists(s: Space, lists: FreeList, total: nat, lo: nat, hi: nat)
    requires Sound(s, lists, total, lo, hi)
    ensures Lists(lists, s.free) && total == Total(s.free)
  {
  }

  lemma NoListEmpty(s: Space, lists: FreeList, total: nat, lo: nat, hi: nat, size: nat)
    requires Sound(s, lists, total, lo, hi) && size in lists
    ensures lists[size] != multiset{}
  {
  }

  lemma ListedBehind(s: Space, lists: FreeList, total: nat, lo: nat, hi: nat)
    requires Sound(s, lists, total, lo, hi)
    ensures Behind(lists, lo)
  {
    hide Covered, Total;
    forall b: Block | 0 < Count(lists, b)
      ensures lo <= b.addr
    {
      assert s.free[b] == Count(lists, b);
      assert b in All(s);
    }
  }

  // ---------- what a block handed out keeps clear of ----------

  ghost predicate ClearOf(blocks: multiset<Block>, b: Block) {
    forall c :: c in blocks && 0 < c.size && 0 < b.size ==> Apart(c, b)
  }

  // A block that joins a divided space lies apart from every block that was in use or pending.
  lemma HandedOutClear(before: Space, after: Space, b: Block, lo: nat, hi: nat)
    requires Divides(All(after), lo, hi)
    requires after == Extended(before, b) || (b in before.free && after == Reused(before, b))
    ensures ClearOf(before.live + multiset(before.pending), b) && lo <= b.addr
  {
    hide Covered, Total;
    assert b in All(after);
    forall c | c in before.live + multiset(before.pending) && 0 < c.size && 0 < b.size
      ensures Apart(c, b)
    {
      assert c in All(after) && b in All(after);
      assert (before.live + multiset(before.pending) + multiset{b})[c] <= All(after)[c];
    }
  }
}
