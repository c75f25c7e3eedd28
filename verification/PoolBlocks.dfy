// Blocks of a pool's memory as values: how they divide the space behind the reserve.
module PoolBlocks {

  datatype Block = Block(addr: nat, size: nat)

  ghost function Total(blocks: multiset<Block>): nat {
    if blocks == multiset{} then 0
    else
      var b :| b in blocks;
      b.size + Total(blocks - multiset{b})
  }

  lemma {:induction false} TotalWithout(blocks: multiset<Block>, b: Block)
    requires b in blocks
    ensures Total(blocks) == b.size + Total(blocks - multiset{b})
    decreases |blocks|
  {
    var c :| c in blocks && Total(blocks) == c.size + Total(blocks - multiset{c});
    if c != b {
      TotalWithout(blocks - multiset{c}, b);
      TotalWithout(blocks - multiset{b}, c);
      assert blocks - multiset{c} - multiset{b} == blocks - multiset{b} - multiset{c};
    }
  }

  lemma TotalWith(blocks: multiset<Block>, b: Block)
    ensures Total(blocks + multiset{b}) == Total(blocks) + b.size
  {
    TotalWithout(blocks + multiset{b}, b);
    assert blocks + multiset{b} - multiset{b} == blocks;
  }

  ghost predicate Apart(b: Block, c: Block) {
    b.addr + b.size <= c.addr || c.addr + c.size <= b.addr
  }

  ghost predicate Holds(b: Block, x: nat) {
    b.addr <= x < b.addr + b.size
  }

  ghost predicate Covered(blocks: multiset<Block>, x: nat) {
    exists b :: b in blocks && Holds(b, x)
  }

  // The blocks divide [lo, hi): all inside, no two overlap, every byte in one, and the sizes add up. Empty blocks
  // take no part in that; they may lie anywhere inside and occur twice.
  ghost predicate Divides(blocks: multiset<Block>, lo: nat, hi: nat) {
    && lo <= hi
    && (forall b :: b in blocks ==> lo <= b.addr && b.addr + b.size <= hi)
    && (forall b, c :: b in blocks && c in blocks && b != c && 0 < b.size && 0 < c.size ==> Apart(b, c))
    && (forall b :: b in blocks && 0 < b.size ==> blocks[b] == 1)
    && (forall x: nat :: lo <= x < hi ==> Covered(blocks, x))
    && Total(blocks) == hi - lo
  }

  // A block taken at the end of the space.
  lemma GrowDivides(blocks: multiset<Block>, lo: nat, hi: nat, size: nat)
    requires Divides(blocks, lo, hi)
    ensures Divides(blocks + multiset{Block(hi, size)}, lo, hi + size)
  {
    TotalWith(blocks, Block(hi, size));
    GrowCovers(blocks, lo, hi, size);
  }

  lemma GrowCovers(blocks: multiset<Block>, lo: nat, hi: nat, size: nat)
    requires forall x: nat :: lo <= x < hi ==> Covered(blocks, x)
    ensures forall x: nat :: lo <= x < hi + size ==> Covered(blocks + multiset{Block(hi, size)}, x)
  {
    var after := blocks + multiset{Block(hi, size)};
    forall x: nat | lo <= x < hi + size
      ensures Covered(after, x)
    {
      if x < hi {
        assert Covered(blocks, x);
        var c :| c in blocks && Holds(c, x);
        assert c in after;
      } else {
        assert Block(hi, size) in after && Holds(Block(hi, size), x);
      }
    }
  }

  // ---------- free lists: for each size the addresses of free blocks ----------

  type FreeList = map<nat, multiset<nat>>

  function Count(lists: FreeList, b: Block): nat {
    if b.size in lists then lists[b.size][b.addr] else 0
  }

  // free is the same blocks as the lists, and no list is kept empty.
  ghost predicate Lists(lists: FreeList, free: multiset<Block>) {
    && (forall b :: free[b] == Count(lists, b))
    && (forall size :: size in lists ==> lists[size] != multiset{})
  }

  function Pushed(lists: FreeList, b: Block): FreeList {
    lists[b.size := (if b.size in lists then lists[b.size] else multiset{}) + multiset{b.addr}]
  }

  function Popped(lists: FreeList, b: Block): FreeList
    requires b.size in lists
  {
    var rest := lists[b.size] - multiset{b.addr};
    if rest == multiset{} then lists - {b.size} else lists[b.size := rest]
  }

  lemma PushLists(lists: FreeList, free: multiset<Block>, b: Block)
    requires Lists(lists, free)
    ensures Lists(Pushed(lists, b), free + multiset{b})
  {
    forall c
      ensures (free + multiset{b})[c] == Count(Pushed(lists, b), c)
    {
      assert free[c] == Count(lists, c);
    }
  }

  lemma PopLists(lists: FreeList, free: multiset<Block>, b: Block)
    requires Lists(lists, free) && b.size in lists && b.addr in lists[b.size]
    ensures b in free && Lists(Popped(lists, b), free - multiset{b})
  {
    assert free[b] == Count(lists, b);
    forall c
      ensures (free - multiset{b})[c] == Count(Popped(lists, b), c)
    {
      assert free[c] == Count(lists, c);
      PopCount(lists, b, c);
    }
  }

  lemma PopCount(lists: FreeList, b: Block, c: Block)
    requires b.size in lists && b.addr in lists[b.size]
    ensures Count(Popped(lists, b), c) == if c == b then Count(lists, c) - 1 else Count(lists, c)
  {
    var rest := lists[b.size] - multiset{b.addr};
    assert rest[c.addr] == if c.addr == b.addr then lists[b.size][c.addr] - 1 else lists[b.size][c.addr];
  }

  lemma EmptyLists()
    ensures Lists(map[], multiset{}) && Total(multiset{}) == 0
  {
  }

  // The block a priority queue hands out: the one with the highest address.
  predicate Top(addrs: multiset<nat>, addr: nat) {
    addr in addrs && forall a :: a in addrs ==> a <= addr
  }

  lemma {:induction false} TopExists(addrs: multiset<nat>)
    requires addrs != multiset{}
    ensures exists addr :: Top(addrs, addr)
    decreases |addrs|
  {
    var a :| a in addrs;
    var rest := addrs - multiset{a};
    if rest == multiset{} {
      assert addrs == multiset{a};
      assert Top(addrs, a);
    } else {
      TopExists(rest);
      var t :| Top(rest, t);
      assert forall c :: c in addrs ==> c == a || c in rest;
      assert Top(addrs, if a < t then t else a);
    }
  }

  // The block a priority queue holds on top.
  method HighestAddress(addrs: multiset<nat>) returns (addr: nat)
    requires addrs != multiset{}
    ensures addr in addrs && Top(addrs, addr)
  {
    TopExists(addrs);
    addr :| addr in addrs && Top(addrs, addr);
  }

  predicate Least(sizes: set<nat>, size: nat) {
    size in sizes && forall s :: s in sizes ==> size <= s
  }

  lemma {:induction false} LeastExists(sizes: set<nat>)
    requires sizes != {}
    ensures exists size :: Least(sizes, size)
  {
    var a :| a in sizes;
    var rest := sizes - {a};
    if rest != {} {
      LeastExists(rest);
      var t :| Least(rest, t);
      assert forall s :: s in sizes ==> s == a || s in rest;
      assert Least(sizes, if a < t then a else t);
    } else {
      assert sizes == {a};
      assert Least(sizes, a);
    }
  }

  // The key an ordered map begins with.
  method LeastSize(sizes: set<nat>) returns (size: nat)
    requires sizes != {}
    ensures size in sizes && Least(sizes, size)
  {
    LeastExists(sizes);
    size :| size in sizes && Least(sizes, size);
  }
}
