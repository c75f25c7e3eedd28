// The order in which the iterator of the hash index meets the occupied buckets.
module HashOrder {
  import opened HashBuckets
  import opened HashChains

  // The occupied ones among the buckets of chain h from the i-th on the way.
  function OccupiedFrom(mem: seq<Cell>, chain: seq<nat>, h: nat, i: nat): seq<nat>
    decreases |chain| + 1 - i
  {
    if |chain| < i then []
    else
      var k := At(chain, h, i);
      (if k < |mem| && mem[k].occupied then [k] else []) + OccupiedFrom(mem, chain, h, i + 1)
  }

  // Occupied buckets of the chains from h on.
  function OrderFrom(mem: seq<Cell>, chains: seq<seq<nat>>, h: nat): seq<nat>
    decreases |chains| - h
  {
    if |chains| <= h then [] else OccupiedFrom(mem, chains[h], h, 0) + OrderFrom(mem, chains, h + 1)
  }

  function Order(mem: seq<Cell>, chains: seq<seq<nat>>): seq<nat> {
    OrderFrom(mem, chains, 0)
  }

  // What an iteration standing at the i-th bucket of chain h still has before it, that bucket included.
  function Rest(mem: seq<Cell>, chains: seq<seq<nat>>, h: nat, i: nat): seq<nat>
    requires h < |chains|
  {
    OccupiedFrom(mem, chains[h], h, i) + OrderFrom(mem, chains, h + 1)
  }

  // The element a countdown from m stops at: the m-th, and the first when m is zero; -1 past the end.
  function Pick(list: seq<nat>, m: int): int {
    if m <= 1 then (if list == [] then -1 else list[0])
    else if m <= |list| then list[m - 1]
    else -1
  }

  lemma RestStep(mem: seq<Cell>, chains: seq<seq<nat>>, h: nat, i: nat, m: int)
    requires h < |chains| && i <= |chains[h]| && At(chains[h], h, i) < |mem|
    ensures var k := At(chains[h], h, i);
      && (mem[k].occupied && m <= 1 ==> Pick(Rest(mem, chains, h, i), m) == k)
      && (mem[k].occupied && 1 < m ==>
            Pick(Rest(mem, chains, h, i), m) == Pick(Rest(mem, chains, h, i + 1), m - 1))
      && (!mem[k].occupied ==> Rest(mem, chains, h, i) == Rest(mem, chains, h, i + 1))
  {
    hide At, Rest;
    RestCons(mem, chains, h, i);
  }

  lemma RestCons(mem: seq<Cell>, chains: seq<seq<nat>>, h: nat, i: nat)
    requires h < |chains| && i <= |chains[h]| && At(chains[h], h, i) < |mem|
    ensures var k := At(chains[h], h, i);
      Rest(mem, chains, h, i) == (if mem[k].occupied then [k] else []) + Rest(mem, chains, h, i + 1)
  {
    hide At, OrderFrom;
  }

  lemma RestEnds(mem: seq<Cell>, chains: seq<seq<nat>>, h: nat)
    requires h < |chains|
    ensures Rest(mem, chains, h, |chains[h]| + 1) == OrderFrom(mem, chains, h + 1)
    ensures OrderFrom(mem, chains, h) == Rest(mem, chains, h, 0)
    ensures OrderFrom(mem, chains, |chains|) == []
  {
    assert OccupiedFrom(mem, chains[h], h, |chains[h]| + 1) == [];
  }

  // ---------- the iteration order as a whole ----------

  lemma {:induction false} OccupiedSuffix(mem: seq<Cell>, chain: seq<nat>, h: nat, i: nat)
    requires i <= |chain| + 1
    ensures var all, some := OccupiedFrom(mem, chain, h, 0), OccupiedFrom(mem, chain, h, i);
      |some| <= |all| && all[|all| - |some|..] == some
  {
    if i != 0 {
      OccupiedSuffix(mem, chain, h, i - 1);
    }
  }

  lemma {:induction false} OrderSuffix(mem: seq<Cell>, chains: seq<seq<nat>>, h: nat)
    requires h <= |chains|
    ensures var all, some := Order(mem, chains), OrderFrom(mem, chains, h);
      |some| <= |all| && all[|all| - |some|..] == some
  {
    if h != 0 {
      OrderSuffix(mem, chains, h - 1);
    }
  }

  lemma RestSuffix(mem: seq<Cell>, chains: seq<seq<nat>>, h: nat, i: nat)
    requires h < |chains| && i <= |chains[h]| + 1
    ensures var all, some := Order(mem, chains), Rest(mem, chains, h, i);
      |some| <= |all| && all[|all| - |some|..] == some
  {
    OrderSuffix(mem, chains, h);
    OccupiedSuffix(mem, chains[h], h, i);
    var whole, part := OccupiedFrom(mem, chains[h], h, 0), OccupiedFrom(mem, chains[h], h, i);
    assert OrderFrom(mem, chains, h) == whole + OrderFrom(mem, chains, h + 1);
    var tail := OrderFrom(mem, chains, h + 1);
    assert (whole + tail)[|whole| - |part|..] == part + tail;
  }

  // Position of a chain bucket on the way around its chain.
  ghost predicate Stands(n: nat, s: Shape, k: nat, i: nat) {
    InChain(n, s.owner, k)
    && var h := HomeOf(n, s.owner, k);
    h < |s.chains| && i <= |s.chains[h]| && At(s.chains[h], h, i) == k
  }

  lemma {:induction false} OccupiedIn(mem: seq<Cell>, chain: seq<nat>, h: nat, i: nat, k: nat)
    requires i <= |chain| + 1
    ensures k in OccupiedFrom(mem, chain, h, i) <==>
      k < |mem| && mem[k].occupied && exists j: nat :: i <= j <= |chain| && At(chain, h, j) == k
    decreases |chain| + 1 - i
  {
    hide At;
    if i <= |chain| {
      OccupiedIn(mem, chain, h, i + 1, k);
      if k in OccupiedFrom(mem, chain, h, i) && k !in OccupiedFrom(mem, chain, h, i + 1) {
        assert At(chain, h, i) == k;
      }
    }
  }

  ghost predicate InChainFrom(mem: seq<Cell>, chains: seq<seq<nat>>, h: nat, g: nat, k: nat) {
    h <= g < |chains| && k in OccupiedFrom(mem, chains[g], g, 0)
  }

  lemma {:induction false} OrderIn(mem: seq<Cell>, chains: seq<seq<nat>>, h: nat, k: nat)
    requires h <= |chains|
    ensures k in OrderFrom(mem, chains, h) <==> exists g: nat :: InChainFrom(mem, chains, h, g, k)
    decreases |chains| - h
  {
    hide OccupiedFrom;
    if h < |chains| {
      OrderIn(mem, chains, h + 1, k);
      if k in OccupiedFrom(mem, chains[h], h, 0) {
        assert InChainFrom(mem, chains, h, h, k);
      } else if k in OrderFrom(mem, chains, h + 1) {
        var g: nat :| InChainFrom(mem, chains, h + 1, g, k);
        assert InChainFrom(mem, chains, h, g, k);
      }
      if g: nat :| InChainFrom(mem, chains, h, g, k) {
        assert g == h || InChainFrom(mem, chains, h + 1, g, k);
      }
    }
  }

  // The order lists exactly the occupied buckets.
  lemma OrderIsOccupied(n: nat, mem: seq<Cell>, s: Shape, k: nat)
    requires Inv(n, mem, s)
    ensures k in Order(mem, s.chains) <==> k < |mem| && mem[k].occupied
  {
    OrderIn(mem, s.chains, 0, k);
    if k in Order(mem, s.chains) {
      var g: nat :| InChainFrom(mem, s.chains, 0, g, k);
      OccupiedIn(mem, s.chains[g], g, 0, k);
    }
    if k < |mem| && mem[k].occupied {
      var h := HomeOf(n, s.owner, k);
      PlaceOnPath(n, mem, s, Ident(h, PrintOf(mem[k])));
      OccupiedIn(mem, s.chains[h], h, 0, k);
      assert InChainFrom(mem, s.chains, 0, h, k);
    }
  }

  lemma {:induction false} OccupiedOnce(n: nat, mem: seq<Cell>, s: Shape, h: nat, i: nat)
    requires Inv(n, mem, s) && h < n && i <= |s.chains[h]| + 1
    ensures Once(OccupiedFrom(mem, s.chains[h], h, i))
    decreases |s.chains[h]| + 1 - i
  {
    hide Inv, At;
    Bounds(n, mem, s);
    var chain := s.chains[h];
    if i <= |chain| {
      OccupiedOnce(n, mem, s, h, i + 1);
      var k := At(chain, h, i);
      OccupiedIn(mem, chain, h, i + 1, k);
      WayOnce(n, mem, s, h, i);
      OnceCons(k, OccupiedFrom(mem, chain, h, i + 1));
    }
  }

  lemma WayOnce(n: nat, mem: seq<Cell>, s: Shape, h: nat, i: nat)
    requires Inv(n, mem, s) && h < n && i <= |s.chains[h]|
    ensures forall j: nat :: i < j <= |s.chains[h]| ==> At(s.chains[h], h, j) != At(s.chains[h], h, i)
  {
    assert Linked(mem, n, h, s.chains[h]) && Once(s.chains[h]);
  }

  lemma OnceCons(k: nat, list: seq<nat>)
    requires Once(list)
    ensures k !in list ==> Once([k] + list)
    ensures Once([] + list)
  {
    assert [] + list == list;
  }

  lemma {:induction false} OrderOnce(n: nat, mem: seq<Cell>, s: Shape, h: nat)
    requires Inv(n, mem, s) && h <= n
    ensures Once(OrderFrom(mem, s.chains, h))
    decreases n - h
  {
    if h < n {
      OrderOnce(n, mem, s, h + 1);
      OccupiedOnce(n, mem, s, h, 0);
      var first, rest := OccupiedFrom(mem, s.chains[h], h, 0), OrderFrom(mem, s.chains, h + 1);
      forall k: nat | k in first && k in rest
        ensures false
      {
        ApartChains(n, mem, s, h, k);
      }
      OnceJoin(first, rest);
    }
  }

  lemma OwnChain(n: nat, mem: seq<Cell>, s: Shape, h: nat, k: nat)
    requires Inv(n, mem, s) && h < |s.chains| && k in OccupiedFrom(mem, s.chains[h], h, 0)
    ensures InChain(n, s.owner, k) && HomeOf(n, s.owner, k) == h
  {
    hide OccupiedFrom;
    OccupiedIn(mem, s.chains[h], h, 0, k);
    var i: nat :| i <= |s.chains[h]| && At(s.chains[h], h, i) == k;
    HomeAt(n, mem, s, h, i);
  }

  lemma ApartChains(n: nat, mem: seq<Cell>, s: Shape, h: nat, k: nat)
    requires Inv(n, mem, s) && h < n
    ensures !(k in OccupiedFrom(mem, s.chains[h], h, 0) && k in OrderFrom(mem, s.chains, h + 1))
  {
    hide OccupiedFrom, OrderFrom;
    OrderIn(mem, s.chains, h + 1, k);
    if k in OccupiedFrom(mem, s.chains[h], h, 0) {
      OwnChain(n, mem, s, h, k);
    }
    if k in OrderFrom(mem, s.chains, h + 1) {
      var g: nat :| InChainFrom(mem, s.chains, h + 1, g, k);
      OwnChain(n, mem, s, g, k);
    }
  }

  lemma OnceJoin(a: seq<nat>, b: seq<nat>)
    requires Once(a) && Once(b) && forall k: nat :: !(k in a && k in b)
    ensures Once(a + b)
  {
    forall i: nat, j: nat | i < j < |a + b|
      ensures (a + b)[i] != (a + b)[j]
    {
      assert i < |a| ==> (a + b)[i] in a;
      assert |a| <= j ==> (a + b)[j] in b;
    }
  }

  // The buckets that stored keys are in.
  function Places(place: map<Ident, nat>, ids: set<Ident>): set<nat>
    requires ids <= place.Keys
  {
    set id | id in ids :: place[id]
  }

  lemma {:induction false} PlacesCount(n: nat, mem: seq<Cell>, s: Shape, ids: set<Ident>)
    requires Inv(n, mem, s) && ids <= s.place.Keys
    ensures |Places(s.place, ids)| == |ids|
  {
    if ids != {} {
      var id :| id in ids;
      PlacesCount(n, mem, s, ids - {id});
      assert Places(s.place, ids) == Places(s.place, ids - {id}) + {s.place[id]};
      assert s.place[id] !in Places(s.place, ids - {id});
    }
  }

  // The iteration meets as many buckets as keys are stored, each bucket once.
  lemma OrderCounts(n: nat, mem: seq<Cell>, s: Shape)
    requires Inv(n, mem, s)
    ensures |Order(mem, s.chains)| == |s.place| && Once(Order(mem, s.chains))
  {
    var order := Order(mem, s.chains);
    OrderOnce(n, mem, s, 0);
    OnceCounts(order);
    PlacesCount(n, mem, s, s.place.Keys);
    forall k: nat
      ensures k in Elements(order) <==> k in Places(s.place, s.place.Keys)
    {
      OrderIsOccupied(n, mem, s, k);
      if k in Elements(order) {
        assert Ident(HomeOf(n, s.owner, k), PrintOf(mem[k])) in s.place;
      }
    }
    assert Elements(order) == Places(s.place, s.place.Keys);
  }

  // Standing at an occupied bucket, the rest of the iteration is the suffix of the order that starts with it.
  lemma StandsInOrder(n: nat, mem: seq<Cell>, s: Shape, k: nat, i: nat, j: nat)
    requires Inv(n, mem, s) && Stands(n, s, k, i)
    requires j < |Order(mem, s.chains)| && Order(mem, s.chains)[j] == k
    ensures HomeOf(n, s.owner, k) < |s.chains|
    ensures Rest(mem, s.chains, HomeOf(n, s.owner, k), i) == Order(mem, s.chains)[j..]
  {
    hide Inv, Order, Rest, At;
    var h := HomeOf(n, s.owner, k);
    var order, rest := Order(mem, s.chains), Rest(mem, s.chains, h, i);
    OrderIsOccupied(n, mem, s, k);
    RestSuffix(mem, s.chains, h, i);
    RestStep(mem, s.chains, h, i, 1);
    OrderCounts(n, mem, s);
    assert order[|order| - |rest|] == k;
  }

  // Every chain bucket stands somewhere on its way.
  lemma StandsSomewhere(n: nat, mem: seq<Cell>, s: Shape, k: nat)
    requires Inv(n, mem, s) && InChain(n, s.owner, k)
    ensures exists i: nat :: Stands(n, s, k, i)
  {
    if k < n {
      assert Stands(n, s, k, 0);
    } else {
      var j :| 0 <= j < |s.chains[s.owner[k]]| && s.chains[s.owner[k]][j] == k;
      assert Stands(n, s, k, j + 1);
    }
  }

  // The walk stands at bucket k, the i-th on the way around chain h.
  ghost predicate Standing(n: nat, mem: seq<Cell>, s: Shape, h: nat, i: nat, k: nat) {
    h < n == |s.chains| && i <= |s.chains[h]| && k == At(s.chains[h], h, i) && k < |mem|
  }

  // What an iteration standing at bucket k still has before it, that bucket included.
  ghost function Ahead(n: nat, mem: seq<Cell>, s: Shape, k: nat): seq<nat>
    requires Inv(n, mem, s) && InChain(n, s.owner, k)
  {
    StandsSomewhere(n, mem, s, k);
    var i: nat :| Stands(n, s, k, i);
    Rest(mem, s.chains, HomeOf(n, s.owner, k), i)
  }

  // Standing at the j-th occupied bucket, that is the order from j on.
  lemma AheadIsSuffix(n: nat, mem: seq<Cell>, s: Shape, k: nat, j: nat)
    requires Inv(n, mem, s) && InChain(n, s.owner, k)
    requires j < |Order(mem, s.chains)| && Order(mem, s.chains)[j] == k
    ensures Ahead(n, mem, s, k) == Order(mem, s.chains)[j..]
  {
    StandsSomewhere(n, mem, s, k);
    var i: nat :| Stands(n, s, k, i) && Ahead(n, mem, s, k) == Rest(mem, s.chains, HomeOf(n, s.owner, k), i);
    StandsInOrder(n, mem, s, k, i, j);
  }

  lemma StandStarts(n: nat, mem: seq<Cell>, s: Shape, k: nat) returns (h: nat, i: nat)
    requires Inv(n, mem, s) && k < |mem| && InChain(n, s.owner, k)
    ensures h < |s.chains| && Standing(n, mem, s, h, i, k)
    ensures Ahead(n, mem, s, k) == Rest(mem, s.chains, h, i)
  {
    StandsSomewhere(n, mem, s, k);
    h := HomeOf(n, s.owner, k);
    i :| Stands(n, s, k, i) && Ahead(n, mem, s, k) == Rest(mem, s.chains, HomeOf(n, s.owner, k), i);
  }

  lemma StandStep(n: nat, mem: seq<Cell>, s: Shape, h: nat, i: nat, k: nat, m: int)
    requires Standing(n, mem, s, h, i, k)
    ensures h < |s.chains| && k < |mem|
    ensures mem[k].occupied && m <= 1 ==> Pick(Rest(mem, s.chains, h, i), m) == k
    ensures mem[k].occupied && 1 < m ==>
      Pick(Rest(mem, s.chains, h, i), m) == Pick(Rest(mem, s.chains, h, i + 1), m - 1)
    ensures !mem[k].occupied ==> Rest(mem, s.chains, h, i) == Rest(mem, s.chains, h, i + 1)
  {
    RestStep(mem, s.chains, h, i, m);
  }

  lemma StandNext(n: nat, mem: seq<Cell>, s: Shape, h: nat, i: nat, k: nat)
    requires Inv(n, mem, s) && Standing(n, mem, s, h, i, k) && k < |mem| && n <= mem[k].next
    ensures h < |s.chains| && i < |s.chains[h]| && Standing(n, mem, s, h, i + 1, mem[k].next)
  {
    LinkIn(n, mem, s, h, i);
    HomeAt(n, mem, s, h, i + 1);
  }

  lemma StandEnds(n: nat, mem: seq<Cell>, s: Shape, h: nat, i: nat, k: nat)
    requires Inv(n, mem, s) && Standing(n, mem, s, h, i, k) && k < |mem| && mem[k].next < n
    ensures h < n == |s.chains| && (k == h || (n <= k && mem[k].next == h))
    ensures Rest(mem, s.chains, h, i + 1) == OrderFrom(mem, s.chains, h + 1)
  {
    LinkIn(n, mem, s, h, i);
    HomeAt(n, mem, s, h, i);
    RestEnds(mem, s.chains, h);
  }

  lemma StandHome(n: nat, mem: seq<Cell>, s: Shape, h: nat)
    requires Inv(n, mem, s) && h < n
    ensures Standing(n, mem, s, h, 0, h) && h < |s.chains|
    ensures OrderFrom(mem, s.chains, h) == Rest(mem, s.chains, h, 0)
  {
    RestEnds(mem, s.chains, h);
  }

  lemma NothingLeft(mem: seq<Cell>, chains: seq<seq<nat>>, h: nat, m: int)
    requires |chains| <= h
    ensures Pick(OrderFrom(mem, chains, h), m) == -1
  {
  }

  // From the j-th occupied bucket, n places on is the (j + n)-th, so n single steps and one step of n agree, and
  // no step at all stays.
  lemma NextInOrder(n: nat, mem: seq<Cell>, s: Shape, k: nat, j: nat, steps: nat)
    requires Inv(n, mem, s) && InChain(n, s.owner, k) && k < |mem| && mem[k].occupied
    requires j < |Order(mem, s.chains)| && Order(mem, s.chains)[j] == k
    ensures var order := Order(mem, s.chains);
      Pick(Ahead(n, mem, s, k), steps + 1) == if j + steps < |order| then order[j + steps] else -1
  {
    hide Inv, Ahead, Order;
    AheadIsSuffix(n, mem, s, k, j);
  }

  lemma FirstInOrder(n: nat, mem: seq<Cell>, s: Shape)
    requires Inv(n, mem, s)
    ensures 0 < n <= |mem| && InChain(n, s.owner, 0)
    ensures Ahead(n, mem, s, 0) == Order(mem, s.chains)
    ensures mem[0].occupied ==> Order(mem, s.chains) != [] && Order(mem, s.chains)[0] == 0
    ensures |Order(mem, s.chains)| == |s.place|
  {
    var h, i := StandStarts(n, mem, s, 0);
    HomeAt(n, mem, s, h, i);
    RestEnds(mem, s.chains, 0);
    OrderCounts(n, mem, s);
    RestStep(mem, s.chains, 0, 0, 1);
  }

  lemma OrderBuckets(n: nat, mem: seq<Cell>, s: Shape, j: nat)
    requires Inv(n, mem, s) && j < |Order(mem, s.chains)|
    ensures var k := Order(mem, s.chains)[j]; k < |mem| && mem[k].occupied && InChain(n, s.owner, k)
  {
    OrderIsOccupied(n, mem, s, Order(mem, s.chains)[j]);
  }
}
