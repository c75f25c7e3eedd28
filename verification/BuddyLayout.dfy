// Blocks of the page arena as values: where they may lie, and what joining, halving and adding blocks keeps.
module BuddyLayout {
  import opened SizeClasses

  // Free lists, one per page level, each in list order.
  type Shelves = seq<seq<nat>>

  // Block addresses per page level, order forgotten.
  type Stock = seq<multiset<nat>>

  ghost predicate Has(stock: Stock, level: nat, a: nat) {
    level < |stock| && a in stock[level]
  }

  function Put(stock: Stock, level: nat, a: nat): Stock
    requires level < |stock|
  {
    stock[level := stock[level] + multiset{a}]
  }

  function Take(stock: Stock, level: nat, a: nat): Stock
    requires level < |stock|
  {
    stock[level := stock[level] - multiset{a}]
  }

  function Without<T>(list: seq<T>, j: nat): seq<T>
    requires j < |list|
  {
    list[..j] + list[j + 1..]
  }

  // Free and outstanding blocks together.
  function Together(free: Shelves, out: Stock): (stock: Stock)
    requires |free| == |out|
    ensures |stock| == |free|
    ensures forall l :: 0 <= l < |free| ==> stock[l] == multiset(free[l]) + out[l]
  {
    seq(|free|, l requires 0 <= l < |free| => multiset(free[l]) + out[l])
  }

  lemma PushIsPut(free: Shelves, out: Stock, l: nat, a: nat)
    requires |free| == |out| && l < |free|
    ensures Together(free[l := [a] + free[l]], out) == Put(Together(free, out), l, a)
  {
    assert multiset([a] + free[l]) + out[l] == multiset(free[l]) + out[l] + multiset{a};
  }

  lemma RemoveIsTake(free: Shelves, out: Stock, l: nat, j: nat)
    requires |free| == |out| && l < |free| && j < |free[l]|
    ensures Together(free[l := Without(free[l], j)], out) == Take(Together(free, out), l, free[l][j])
  {
    assert free[l] == free[l][..j] + [free[l][j]] + free[l][j + 1..];
    assert multiset(free[l]) == multiset(Without(free[l], j)) + multiset{free[l][j]};
    assert multiset(Without(free[l], j)) + out[l] == multiset(free[l]) + out[l] - multiset{free[l][j]};
  }

  lemma PutThenTake(stock: Stock, l: nat, a: nat)
    requires l < |stock|
    ensures Take(Put(stock, l, a), l, a) == stock
  {
    assert stock[l] + multiset{a} - multiset{a} == stock[l];
  }

  lemma OutPut(free: Shelves, out: Stock, l: nat, a: nat)
    requires |free| == |out| && l < |free|
    ensures Together(free, Put(out, l, a)) == Put(Together(free, out), l, a)
  {
    assert multiset(free[l]) + (out[l] + multiset{a}) == multiset(free[l]) + out[l] + multiset{a};
  }

  lemma OutTake(free: Shelves, out: Stock, l: nat, a: nat)
    requires |free| == |out| && Has(out, l, a)
    ensures Together(free, Take(out, l, a)) == Take(Together(free, out), l, a)
    ensures Put(Take(out, l, a), l, a) == out
  {
    assert multiset(free[l]) + (out[l] - multiset{a}) == multiset(free[l]) + out[l] - multiset{a};
    assert out[l] - multiset{a} + multiset{a} == out[l];
  }

  lemma TakesCommute(stock: Stock, l: nat, a: nat, b: nat)
    requires l < |stock|
    ensures Take(Take(stock, l, a), l, b) == Take(Take(stock, l, b), l, a)
  {
    assert stock[l] - multiset{a} - multiset{b} == stock[l] - multiset{b} - multiset{a};
  }

  function Bytes(stock: Stock): nat {
    if stock == [] then 0
    else var top := |stock| - 1; Bytes(stock[..top]) + |stock[top]| * PageSize(top)
  }

  ghost predicate Apart(l: nat, a: nat, m: nat, b: nat) {
    a + PageSize(l) <= b || b + PageSize(m) <= a
  }

  ghost predicate Holds(l: nat, a: nat, x: nat) {
    a <= x < a + PageSize(l)
  }

  ghost predicate Covered(stock: Stock, x: nat) {
    exists l: nat, a: nat :: Has(stock, l, a) && Holds(l, a, x)
  }

  ghost predicate Inside(stock: Stock, lo: nat, hi: nat) {
    forall l: nat, a: nat :: Has(stock, l, a) ==> stock[l][a] == 1 && lo <= a && a + PageSize(l) <= hi
  }

  ghost predicate Disjoint(stock: Stock) {
    forall l: nat, a: nat, m: nat, b: nat ::
      Has(stock, l, a) && Has(stock, m, b) && (l != m || a != b) ==> Apart(l, a, m, b)
  }

  ghost predicate Full(stock: Stock, lo: nat, hi: nat) {
    forall x: nat :: lo <= x < hi ==> Covered(stock, x)
  }

  // The blocks tile [lo, hi): each lies inside it, no two overlap, every byte belongs to one, sizes add up.
  ghost predicate Tiles(stock: Stock, lo: nat, hi: nat) {
    && lo <= hi
    && Inside(stock, lo, hi)
    && Disjoint(stock)
    && Full(stock, lo, hi)
    && Bytes(stock) == hi - lo
  }

  lemma {:induction false} BytesUpdate(stock: Stock, l: nat, blocks: multiset<nat>, delta: int)
    requires l < |stock| && |blocks| == |stock[l]| + delta
    ensures Bytes(stock[l := blocks]) == Bytes(stock) + delta * PageSize(l)
    decreases |stock|
  {
    var top := |stock| - 1;
    if l == top {
      assert stock[l := blocks][..top] == stock[..top];
      Distribute(|stock[l]|, delta, PageSize(l));
    } else {
      assert stock[l := blocks][..top] == stock[..top][l := blocks];
      BytesUpdate(stock[..top], l, blocks, delta);
    }
  }

  lemma Distribute(x: int, y: int, z: int)
    ensures (x + y) * z == x * z + y * z
  {
  }

  lemma BytesPut(stock: Stock, l: nat, a: nat)
    requires l < |stock|
    ensures Bytes(Put(stock, l, a)) == Bytes(stock) + PageSize(l)
  {
    BytesUpdate(stock, l, stock[l] + multiset{a}, 1);
  }

  lemma BytesTake(stock: Stock, l: nat, a: nat)
    requires Has(stock, l, a)
    ensures Bytes(Take(stock, l, a)) == Bytes(stock) - PageSize(l)
  {
    BytesUpdate(stock, l, stock[l] - multiset{a}, -1);
  }

  // Two neighbouring blocks of one level, replaced by the block of the next level that they form.
  function Joined(stock: Stock, l: nat, a: nat): Stock
    requires l + 1 < |stock|
  {
    Put(Take(Take(stock, l, a), l, a + PageSize(l)), l + 1, a)
  }

  // A block of level l + 1 replaced by its two halves.
  function Halved(stock: Stock, l: nat, a: nat): Stock
    requires l + 1 < |stock|
  {
    Put(Put(Take(stock, l + 1, a), l, a), l, a + PageSize(l))
  }

  lemma HalvesOf(l: nat, a: nat, m: nat, b: nat)
    ensures Apart(l + 1, a, m, b) <==> Apart(l, a, m, b) && Apart(l, a + PageSize(l), m, b)
    ensures Apart(l, a, m, b) <==> Apart(m, b, l, a)
  {
    PageSizeDoubles(l);
  }

  // What an exchange of blocks at levels l and l + 1 does to membership, for both directions.
  ghost predicate Exchanged(stock: Stock, after: Stock, l: nat, a: nat, joined: bool) {
    var s := PageSize(l);
    && |after| == |stock|
    && (forall m: nat, b: nat :: Has(after, m, b) <==>
          if m == l && (b == a || b == a + s) then !joined
          else if m == l + 1 && b == a then joined
          else Has(stock, m, b))
    && (forall m: nat, b: nat :: Has(after, m, b) && Has(stock, m, b) ==> after[m][b] == stock[m][b])
    && (forall m: nat, b: nat :: Has(after, m, b) && !Has(stock, m, b) ==> after[m][b] == 1)
  }

  // The same exchange, block by block with multiplicities.
  ghost predicate Swapped(stock: Stock, after: Stock, l: nat, a: nat, joined: bool) {
    var s := PageSize(l);
    |after| == |stock| && forall m: nat, b: nat :: m < |stock| ==>
      after[m][b] == (
        if m == l && (b == a || b == a + s) then (if joined then 0 else 1)
        else if m == l + 1 && b == a then (if joined then 1 else 0)
        else stock[m][b])
  }

  lemma SwappedExchanges(stock: Stock, after: Stock, l: nat, a: nat, joined: bool)
    requires Swapped(stock, after, l, a, joined) && l + 1 < |stock|
    requires if joined then !Has(stock, l + 1, a) else !Has(stock, l, a) && !Has(stock, l, a + PageSize(l))
    ensures Exchanged(stock, after, l, a, joined)
  {
    hide PageSize;
  }

  lemma JoinExchanges(stock: Stock, l: nat, a: nat)
    requires l + 1 < |stock| && !Has(stock, l + 1, a)
    requires Has(stock, l, a) && stock[l][a] == 1
    requires Has(stock, l, a + PageSize(l)) && stock[l][a + PageSize(l)] == 1
    ensures Exchanged(stock, Joined(stock, l, a), l, a, true)
  {
    hide PageSize, Exchanged;
    var after := Joined(stock, l, a);
    assert after[l] == stock[l] - multiset{a} - multiset{a + PageSize(l)};
    assert after[l + 1] == stock[l + 1] + multiset{a};
    SwappedExchanges(stock, after, l, a, true);
  }

  lemma JoinBytes(stock: Stock, l: nat, a: nat)
    requires l + 1 < |stock|
    requires Has(stock, l, a) && Has(stock, l, a + PageSize(l))
    ensures Bytes(Joined(stock, l, a)) == Bytes(stock)
  {
    hide PageSize, Bytes;
    var fewer := stock[l] - multiset{a} - multiset{a + PageSize(l)};
    BytesUpdate(stock, l, fewer, -2);
    BytesPut(stock[l := fewer], l + 1, a);
    PageSizeDoubles(l);
    assert Joined(stock, l, a) == Put(stock[l := fewer], l + 1, a);
  }

  lemma HalveExchanges(stock: Stock, l: nat, a: nat)
    requires Has(stock, l + 1, a) && stock[l + 1][a] == 1
    requires !Has(stock, l, a) && !Has(stock, l, a + PageSize(l))
    ensures Exchanged(stock, Halved(stock, l, a), l, a, false)
  {
    hide PageSize, Exchanged;
    var after := Halved(stock, l, a);
    assert after[l] == stock[l] + multiset{a} + multiset{a + PageSize(l)};
    assert after[l + 1] == stock[l + 1] - multiset{a};
    SwappedExchanges(stock, after, l, a, false);
  }

  lemma HalveBytes(stock: Stock, l: nat, a: nat)
    requires Has(stock, l + 1, a)
    ensures Bytes(Halved(stock, l, a)) == Bytes(stock)
  {
    PageSizeDoubles(l);
    BytesTake(stock, l + 1, a);
    BytesPut(Take(stock, l + 1, a), l, a);
    BytesPut(Put(Take(stock, l + 1, a), l, a), l, a + PageSize(l));
  }

  lemma ExchangeFull(stock: Stock, after: Stock, l: nat, a: nat, joined: bool, lo: nat, hi: nat)
    requires Full(stock, lo, hi) && Exchanged(stock, after, l, a, joined)
    ensures Full(after, lo, hi)
  {
    PageSizeDoubles(l);
    forall x: nat | lo <= x < hi
      ensures Covered(after, x)
    {
      assert Covered(stock, x);
      var m: nat, b: nat :| Has(stock, m, b) && Holds(m, b, x);
      assert Has(after, m, b) || Holds(l + 1, a, x);
      assert Holds(l + 1, a, x) ==> Holds(l, a, x) || Holds(l, a + PageSize(l), x);
    }
  }

  lemma JoinDisjoint(stock: Stock, after: Stock, l: nat, a: nat)
    requires Disjoint(stock) && Exchanged(stock, after, l, a, true)
    requires Has(stock, l, a) && Has(stock, l, a + PageSize(l))
    ensures Disjoint(after)
  {
    forall m: nat, b: nat | Has(after, m, b) && (m != l + 1 || b != a)
      ensures Apart(m, b, l + 1, a) && Apart(l + 1, a, m, b)
    {
      HalvesOf(l, a, m, b);
    }
  }

  lemma HalveDisjoint(stock: Stock, after: Stock, l: nat, a: nat)
    requires Disjoint(stock) && Exchanged(stock, after, l, a, false)
    requires Has(stock, l + 1, a)
    ensures Disjoint(after)
  {
    forall m: nat, b: nat | Has(after, m, b) && !(m == l && (b == a || b == a + PageSize(l)))
      ensures Apart(m, b, l, a) && Apart(m, b, l, a + PageSize(l))
      ensures Apart(l, a, m, b) && Apart(l, a + PageSize(l), m, b)
    {
      HalvesOf(l, a, m, b);
      HalvesOf(l, a + PageSize(l), m, b);
    }
  }

  lemma JoinKeepsTiling(stock: Stock, l: nat, a: nat, lo: nat, hi: nat)
    requires Tiles(stock, lo, hi) && l + 1 < |stock|
    requires Has(stock, l, a) && Has(stock, l, a + PageSize(l))
    ensures Tiles(Joined(stock, l, a), lo, hi)
  {
    var after := Joined(stock, l, a);
    assert !Has(stock, l + 1, a) by { assert !Apart(l, a, l + 1, a); }
    JoinExchanges(stock, l, a);
    JoinBytes(stock, l, a);
    JoinDisjoint(stock, after, l, a);
    ExchangeFull(stock, after, l, a, true, lo, hi);
    PageSizeDoubles(l);
  }

  lemma HalveKeepsTiling(stock: Stock, l: nat, a: nat, lo: nat, hi: nat)
    requires Tiles(stock, lo, hi) && Has(stock, l + 1, a)
    ensures Tiles(Halved(stock, l, a), lo, hi)
  {
    var after := Halved(stock, l, a);
    PageSizeDoubles(l);
    assert !Has(stock, l, a) by { assert !Apart(l + 1, a, l, a); }
    assert !Has(stock, l, a + PageSize(l)) by { assert !Apart(l + 1, a, l, a + PageSize(l)); }
    HalveExchanges(stock, l, a);
    HalveBytes(stock, l, a);
    HalveDisjoint(stock, after, l, a);
    ExchangeFull(stock, after, l, a, false, lo, hi);
  }

  lemma GrowKeepsTiling(stock: Stock, l: nat, lo: nat, hi: nat)
    requires Tiles(stock, lo, hi) && l < |stock|
    ensures Tiles(Put(stock, l, hi), lo, hi + PageSize(l))
  {
    var after := Put(stock, l, hi);
    assert !Has(stock, l, hi);
    assert after[l] == stock[l] + multiset{hi};
    assert forall m: nat, b: nat :: Has(after, m, b) <==> Has(stock, m, b) || (m == l && b == hi);
    assert Full(after, lo, hi + PageSize(l)) by {
      forall x: nat | lo <= x < hi + PageSize(l)
        ensures Covered(after, x)
      {
        if x < hi {
          assert Covered(stock, x);
          var m: nat, b: nat :| Has(stock, m, b) && Holds(m, b, x);
          assert Has(after, m, b);
        } else {
          assert Holds(l, hi, x);
        }
      }
    }
    BytesPut(stock, l, hi);
  }

  function Nothing(levels: nat): Stock {
    seq(levels, _ => multiset{})
  }

  lemma NothingTiles(levels: nat, lo: nat)
    ensures Tiles(Nothing(levels), lo, lo)
  {
    NothingBytes(levels);
  }

  lemma {:induction false} NothingBytes(levels: nat)
    ensures Bytes(Nothing(levels)) == 0
  {
    if levels != 0 {
      assert Nothing(levels)[..levels - 1] == Nothing(levels - 1);
      NothingBytes(levels - 1);
    }
  }
}
