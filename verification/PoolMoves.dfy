// Blocks at another base address: what a move of the mapped file does to them.
module PoolMoves {
  import opened Bytes
  import opened PoolBlocks
  import opened PoolSpace
  import opened FreeListFile
  import opened FreeListDump

  // after holds exactly the blocks of before, each moved with the base, as often as before.
  ghost predicate Moved(before: multiset<Block>, after: multiset<Block>, from: nat, to: nat) {
    && (forall b :: b in before ==> from <= b.addr)
    && (forall b: Block :: from <= b.addr ==> after[Shifted(b, from, to)] == before[b])
    && (forall c :: c in after ==> to <= c.addr)
    && Total(after) == Total(before)
  }

  ghost predicate Enumerates(s: seq<Block>, blocks: multiset<Block>) {
    multiset(s) == blocks
  }

  lemma {:induction false} Enumerated(blocks: multiset<Block>)
    ensures exists s: seq<Block> :: Enumerates(s, blocks)
    decreases |blocks|
  {
    if blocks == multiset{} {
      assert Enumerates([], blocks);
    } else {
      var b :| b in blocks;
      Enumerated(blocks - multiset{b});
      var rest: seq<Block> :| Enumerates(rest, blocks - multiset{b});
      assert multiset(rest + [b]) == multiset(rest) + multiset{b};
      assert Enumerates(rest + [b], blocks);
    }
  }

  lemma ShiftMoves(blocks: seq<Block>, from: nat, to: nat)
    requires AllBehind(blocks, from)
    ensures Moved(multiset(blocks), multiset(AllShifted(blocks, from, to)), from, to)
  {
    hide Total;
    forall b: Block | from <= b.addr
      ensures multiset(AllShifted(blocks, from, to))[Shifted(b, from, to)] == multiset(blocks)[b]
    {
      ShiftKeepsCount(blocks, from, to, b);
    }
    ShiftKeepsTotal(blocks, from, to);
    forall c | c in multiset(AllShifted(blocks, from, to))
      ensures to <= c.addr
    {
      var i :| 0 <= i < |blocks| && AllShifted(blocks, from, to)[i] == c;
    }
  }

  // Where the blocks go can be found for every multiset of them.
  lemma MovedExists(before: multiset<Block>, from: nat, to: nat)
    requires forall b :: b in before ==> from <= b.addr
    ensures exists after :: Moved(before, after, from, to)
  {
    Enumerated(before);
    var s: seq<Block> :| Enumerates(s, before);
    forall i | 0 <= i < |s|
      ensures from <= s[i].addr
    {
      assert s[i] in multiset(s);
    }
    ShiftMoves(s, from, to);
  }

  lemma {:induction false} TotalOfBoth(a: multiset<Block>, b: multiset<Block>)
    ensures Total(a + b) == Total(a) + Total(b)
    decreases |b|
  {
    if b == multiset{} {
      assert a + b == a;
    } else {
      var x :| x in b;
      TotalOfBoth(a, b - multiset{x});
      TotalWithout(b, x);
      TotalWithout(a + b, x);
      assert a + b - multiset{x} == a + (b - multiset{x});
    }
  }

  lemma MovedBoth(a: multiset<Block>, b: multiset<Block>, a': multiset<Block>, b': multiset<Block>, from: nat, to: nat)
    requires Moved(a, a', from, to) && Moved(b, b', from, to)
    ensures Moved(a + b, a' + b', from, to)
  {
    hide Total;
    TotalOfBoth(a, b);
    TotalOfBoth(a', b');
  }

  lemma MovedBack(before: multiset<Block>, after: multiset<Block>, from: nat, to: nat, c: Block)
    requires Moved(before, after, from, to) && c in after
    ensures to <= c.addr
    ensures var b := Shifted(c, to, from); b in before && c == Shifted(b, from, to) && after[c] == before[b]
  {
    hide Total;
    var b := Shifted(c, to, from);
    assert c == Shifted(b, from, to);
    assert after[Shifted(b, from, to)] == before[b];
  }

  // Blocks that divide a space divide the moved space after a move.
  lemma MovedDivides(before: multiset<Block>, after: multiset<Block>, lo: nat, hi: nat, to: nat)
    requires Divides(before, lo, hi) && Moved(before, after, lo, to)
    ensures Divides(after, to, to + hi - lo)
  {
    hide Total, Covered, Moved;
    forall c | c in after
      ensures to <= c.addr && c.addr + c.size <= to + hi - lo && (0 < c.size ==> after[c] == 1)
    {
      MovedBack(before, after, lo, to, c);
    }
    forall c, d | c in after && d in after && c != d && 0 < c.size && 0 < d.size
      ensures Apart(c, d)
    {
      MovedBack(before, after, lo, to, c);
      MovedBack(before, after, lo, to, d);
      assert Apart(Shifted(c, to, lo), Shifted(d, to, lo));
    }
    forall x: nat | to <= x < to + hi - lo
      ensures Covered(after, x)
    {
      MovedCovers(before, after, lo, to, x);
    }
    MovedTotal(before, after, lo, to);
  }

  lemma MovedTotal(before: multiset<Block>, after: multiset<Block>, from: nat, to: nat)
    requires Moved(before, after, from, to)
    ensures Total(after) == Total(before)
  {
  }

  lemma MovedCovers(before: multiset<Block>, after: multiset<Block>, from: nat, to: nat, x: nat)
    requires Moved(before, after, from, to) && to <= x && Covered(before, x - to + from)
    ensures Covered(after, x)
  {
    hide Total;
    var b :| b in before && Holds(b, x - to + from);
    assert after[Shifted(b, from, to)] == before[b];
    assert Shifted(b, from, to) in after && Holds(Shifted(b, from, to), x);
  }

  lemma MovedSizes(before: multiset<Block>, after: multiset<Block>, from: nat, to: nat)
    requires Moved(before, after, from, to) && SizesFit(before)
    ensures SizesFit(after)
  {
    hide Total;
    forall c | c in after
      ensures c.size < TWO32
    {
      MovedBack(before, after, from, to, c);
    }
  }

  lemma MovedAdd(before: multiset<Block>, after: multiset<Block>, from: nat, to: nat, b: Block)
    requires Moved(before, after, from, to) && from <= b.addr
    ensures Moved(before + multiset{b}, after + multiset{Shifted(b, from, to)}, from, to)
  {
    hide Moved;
    MovedOne(b, from, to);
    MovedBoth(before, multiset{b}, after, multiset{Shifted(b, from, to)}, from, to);
  }

  lemma MovedOne(b: Block, from: nat, to: nat)
    requires from <= b.addr
    ensures Moved(multiset{b}, multiset{Shifted(b, from, to)}, from, to)
  {
    hide Total;
    TotalWith(multiset{}, b);
    TotalWith(multiset{}, Shifted(b, from, to));
    assert multiset{} + multiset{b} == multiset{b};
    assert multiset{} + multiset{Shifted(b, from, to)} == multiset{Shifted(b, from, to)};
  }

  lemma MovedTake(before: multiset<Block>, after: multiset<Block>, from: nat, to: nat, b: Block)
    requires Moved(before, after, from, to) && b in before
    ensures from <= b.addr
    ensures Shifted(b, from, to) in after
    ensures Moved(before - multiset{b}, after - multiset{Shifted(b, from, to)}, from, to)
  {
    hide Total;
    assert after[Shifted(b, from, to)] == before[b];
    TotalWithout(before, b);
    TotalWithout(after, Shifted(b, from, to));
  }

  lemma {:induction false} MovedCount(before: multiset<Block>, after: multiset<Block>, from: nat, to: nat)
    requires Moved(before, after, from, to)
    ensures |after| == |before|
    decreases |before|
  {
    hide Total, Moved;
    if before == multiset{} {
      MovedNothing(before, after, from, to);
    } else {
      var b :| b in before;
      MovedTake(before, after, from, to, b);
      MovedCount(before - multiset{b}, after - multiset{Shifted(b, from, to)}, from, to);
    }
  }

  lemma MovedNothing(before: multiset<Block>, after: multiset<Block>, from: nat, to: nat)
    requires Moved(before, after, from, to) && before == multiset{}
    ensures after == multiset{}
  {
    hide Total;
    if c :| c in after {
      MovedBack(before, after, from, to, c);
    }
  }

  // Two moves one after the other are one.
  lemma MovedTwice(a: multiset<Block>, b: multiset<Block>, c: multiset<Block>, from: nat, via: nat, to: nat)
    requires Moved(a, b, from, via) && Moved(b, c, via, to)
    ensures Moved(a, c, from, to)
  {
    hide Moved, Total;
    forall x: Block | from <= x.addr
      ensures c[Shifted(x, from, to)] == a[x]
    {
      MovedAt(a, b, from, via, x);
      MovedAt(b, c, via, to, Shifted(x, from, via));
      assert Shifted(Shifted(x, from, via), via, to) == Shifted(x, from, to);
    }
    MovedBounds(a, b, from, via);
    MovedBounds(b, c, via, to);
    NowMoved(a, c, from, to);
  }

  // A move can be undone.
  lemma MovedHome(before: multiset<Block>, after: multiset<Block>, from: nat, to: nat)
    requires Moved(before, after, from, to)
    ensures Moved(after, before, to, from)
  {
    hide Moved, Total;
    forall c: Block | to <= c.addr
      ensures before[Shifted(c, to, from)] == after[c]
    {
      MovedAt(before, after, from, to, Shifted(c, to, from));
      assert Shifted(Shifted(c, to, from), from, to) == c;
    }
    MovedBounds(before, after, from, to);
    NowMoved(after, before, to, from);
  }

  lemma MovedAt(before: multiset<Block>, after: multiset<Block>, from: nat, to: nat, b: Block)
    requires Moved(before, after, from, to) && from <= b.addr
    ensures after[Shifted(b, from, to)] == before[b]
  {
    hide Total;
  }

  lemma MovedBounds(before: multiset<Block>, after: multiset<Block>, from: nat, to: nat)
    requires Moved(before, after, from, to)
    ensures forall b :: b in before ==> from <= b.addr
    ensures forall c :: c in after ==> to <= c.addr
    ensures Total(after) == Total(before)
  {
    hide Total;
  }

  lemma NowMoved(before: multiset<Block>, after: multiset<Block>, from: nat, to: nat)
    requires forall b :: b in before ==> from <= b.addr
    requires forall b: Block :: from <= b.addr ==> after[Shifted(b, from, to)] == before[b]
    requires forall c :: c in after ==> to <= c.addr
    requires Total(after) == Total(before)
    ensures Moved(before, after, from, to)
  {
    hide Total;
  }
}
