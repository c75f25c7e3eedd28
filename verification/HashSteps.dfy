// What each write of the hash index does to the shape of its chains and to the map they stand for.
module HashSteps {
  import opened HashBuckets
  import opened HashChains

  lemma EmptyTable(n: nat)
    requires 0 < n
    ensures Inv(n, seq(n, _ => ZERO), Shape(seq(n, _ => []), map[], map[]))
  {
  }

  // A fresh bucket at the end belongs to no chain.
  lemma Grow(n: nat, mem: seq<Cell>, s: Shape)
    requires Inv(n, mem, s)
    ensures Inv(n, mem + [ZERO], s)
    ensures !InChain(n, s.owner, |mem|)
  {
    var more := mem + [ZERO];
    assert forall k: nat :: k < |mem| ==> more[k] == mem[k];
    assert Rings(n, more, s.chains, s.owner) by {
      forall h: nat | h < n
        ensures Linked(more, n, h, s.chains[h])
      {
        assert Linked(mem, n, h, s.chains[h]);
      }
    }
  }

  // Rewriting an unoccupied bucket without touching its link.
  lemma RewriteFree(n: nat, mem: seq<Cell>, s: Shape, k: nat, c: Cell)
    requires Inv(n, mem, s) && k < |mem| && InChain(n, s.owner, k)
    requires !mem[k].occupied && !c.occupied && c.next == mem[k].next
    ensures Inv(n, mem[k := c], s)
  {
    SameLinks(n, mem, mem[k := c], s.chains, s.owner);
  }

  lemma SameLinks(n: nat, mem: seq<Cell>, after: seq<Cell>, chains: seq<seq<nat>>, owner: map<nat, nat>)
    requires Rings(n, mem, chains, owner) && |after| == |mem|
    requires forall k: nat :: k < |mem| ==> after[k].next == mem[k].next
    ensures Rings(n, after, chains, owner)
  {
    forall h: nat | h < n
      ensures Linked(after, n, h, chains[h])
    {
      assert Linked(mem, n, h, chains[h]);
    }
  }

  // Clearing an unoccupied primary slot without successors.
  lemma ClearPrimary(n: nat, mem: seq<Cell>, s: Shape, h: nat)
    requires Inv(n, mem, s) && h < n && s.chains[h] == [] && !mem[h].occupied
    ensures Inv(n, mem[h := ZERO], s)
  {
    hide Linked, Once, Placed;
    forall g: nat | g < n
      ensures Linked(mem[h := ZERO], n, g, s.chains[g])
    {
      ClearLinks(mem, n, g, s.chains[g], h);
    }
    ClearPlaces(n, mem, s.owner, s.place, h);
  }

  lemma ClearLinks(mem: seq<Cell>, n: nat, g: nat, chain: seq<nat>, h: nat)
    requires Linked(mem, n, g, chain) && h < n && (g == h ==> chain == [])
    ensures Linked(mem[h := ZERO], n, g, chain)
  {
  }

  lemma ClearPlaces(n: nat, mem: seq<Cell>, owner: map<nat, nat>, place: map<Ident, nat>, h: nat)
    requires Placed(n, mem, owner, place) && h < |mem| && !mem[h].occupied
    ensures Placed(n, mem[h := ZERO], owner, place)
  {
    hide Canonical, PrintOf;
  }

  // A chain whose own links did not change.
  lemma ChainFrame(mem: seq<Cell>, after: seq<Cell>, n: nat, h: nat, chain: seq<nat>)
    requires Linked(mem, n, h, chain) && |mem| <= |after|
    requires after[h].next == mem[h].next
    requires forall i: nat :: i < |chain| ==> after[chain[i]].next == mem[chain[i]].next
    ensures Linked(after, n, h, chain)
  {
  }

  lemma ChainExtends(mem: seq<Cell>, after: seq<Cell>, n: nat, h: nat, chain: seq<nat>, pick: nat)
    requires Linked(mem, n, h, chain) && Once(chain + [pick]) && n <= pick < |mem| == |after|
    requires after[pick].next == h && after[At(chain, h, |chain|)].next == pick
    requires forall i: nat :: i < |chain| ==> after[At(chain, h, i)].next == mem[At(chain, h, i)].next
    ensures Linked(after, n, h, chain + [pick])
  {
    forall i: nat | i < |chain| + 1
      ensures n <= (chain + [pick])[i] < |after|
      ensures after[(chain + [pick])[i]].next == LinkOf(chain + [pick], i + 1, h)
    {
      if i < |chain| {
        assert (chain + [pick])[i] == At(chain, h, i + 1);
      }
    }
    if chain != [] {
      assert after[At(chain, h, 0)].next == chain[0];
    }
  }

  lemma ChainShrinks(mem: seq<Cell>, after: seq<Cell>, n: nat, h: nat, chain: seq<nat>)
    requires Linked(mem, n, h, chain) && chain != [] && Once(chain) && |mem| == |after|
    requires after[h].next == mem[chain[0]].next
    requires forall i: nat :: 0 < i < |chain| ==> after[chain[i]].next == mem[chain[i]].next
    ensures Linked(after, n, h, chain[1..])
  {
    assert mem[chain[0]].next == LinkOf(chain, 1, h);
    forall i: nat | i < |chain| - 1
      ensures after[chain[1..][i]].next == LinkOf(chain[1..], i + 1, h)
    {
      assert chain[1..][i] == chain[i + 1];
    }
  }

  // Linking an unused bucket behind the last one of chain h.
  function Extended(s: Shape, h: nat, pick: nat): Shape
    requires h < |s.chains|
  {
    Shape(s.chains[h := s.chains[h] + [pick]], s.owner[pick := h], s.place)
  }

  function LinkedIn(mem: seq<Cell>, last: nat, pick: nat, c: Cell): (after: seq<Cell>)
    requires last < |mem| && pick < |mem|
    ensures |after| == |mem|
  {
    mem[last := mem[last].(next := pick)][pick := c]
  }

  lemma Link(n: nat, mem: seq<Cell>, s: Shape, h: nat, pick: nat, c: Cell)
    requires Inv(n, mem, s) && h < n && n <= pick < |mem| && pick !in s.owner
    requires !c.occupied && c.next == h
    ensures At(s.chains[h], h, |s.chains[h]|) < |mem|
    ensures Inv(n, LinkedIn(mem, At(s.chains[h], h, |s.chains[h]|), pick, c), Extended(s, h, pick))
  {
    HomeAt(n, mem, s, h, |s.chains[h]|);
    LinkChains(n, mem, s, h, pick, c);
    LinkOwners(n, mem, s, h, pick);
    LinkPlaces(n, mem, s, h, At(s.chains[h], h, |s.chains[h]|), pick, c);
  }

  lemma LinkChains(n: nat, mem: seq<Cell>, s: Shape, h: nat, pick: nat, c: Cell)
    requires Rings(n, mem, s.chains, s.owner) && h < n && n <= pick < |mem| && pick !in s.owner
    requires c.next == h && At(s.chains[h], h, |s.chains[h]|) < |mem|
    ensures var after := LinkedIn(mem, At(s.chains[h], h, |s.chains[h]|), pick, c);
      forall g: nat :: g < n ==>
        Linked(after, n, g, Extended(s, h, pick).chains[g]) && Once(Extended(s, h, pick).chains[g])
  {
    var chain := s.chains[h];
    forall g: nat | g < n
      ensures Linked(LinkedIn(mem, At(chain, h, |chain|), pick, c), n, g, Extended(s, h, pick).chains[g])
      ensures Once(Extended(s, h, pick).chains[g])
    {
      if g == h {
        LinkOwnChain(n, mem, s, h, pick, c);
      } else {
        LinkOtherChain(n, mem, s, h, pick, c, g);
      }
    }
  }

  lemma LinkOwnChain(n: nat, mem: seq<Cell>, s: Shape, h: nat, pick: nat, c: Cell)
    requires Rings(n, mem, s.chains, s.owner) && h < n && n <= pick < |mem| && pick !in s.owner
    requires c.next == h && At(s.chains[h], h, |s.chains[h]|) < |mem|
    ensures Linked(LinkedIn(mem, At(s.chains[h], h, |s.chains[h]|), pick, c), n, h, s.chains[h] + [pick])
    ensures Once(s.chains[h] + [pick])
  {
    var chain := s.chains[h];
    var last := At(chain, h, |chain|);
    assert Linked(mem, n, h, chain) && Once(chain);
    assert forall i: nat :: i < |chain| ==> chain[i] in s.owner;
    assert forall i: nat :: i < |chain| ==> At(chain, h, i) != last && At(chain, h, i) != pick;
    ChainExtends(mem, LinkedIn(mem, last, pick, c), n, h, chain, pick);
  }

  lemma LinkOtherChain(n: nat, mem: seq<Cell>, s: Shape, h: nat, pick: nat, c: Cell, g: nat)
    requires Rings(n, mem, s.chains, s.owner) && h < n && n <= pick < |mem| && pick !in s.owner
    requires At(s.chains[h], h, |s.chains[h]|) < |mem| && g < n && g != h
    ensures Linked(LinkedIn(mem, At(s.chains[h], h, |s.chains[h]|), pick, c), n, g, s.chains[g])
    ensures Once(s.chains[g])
  {
    var last := At(s.chains[h], h, |s.chains[h]|);
    HomeAt(n, mem, s, h, |s.chains[h]|);
    assert Linked(mem, n, g, s.chains[g]);
    assert forall i: nat :: i < |s.chains[g]| ==> s.chains[g][i] in s.owner && s.owner[s.chains[g][i]] == g;
    ChainFrame(mem, LinkedIn(mem, last, pick, c), n, g, s.chains[g]);
  }

  lemma LinkOwners(n: nat, mem: seq<Cell>, s: Shape, h: nat, pick: nat)
    requires Rings(n, mem, s.chains, s.owner) && h < n && n <= pick < |mem| && pick !in s.owner
    ensures var t := Extended(s, h, pick);
      && (forall g: nat, i: nat :: g < n && i < |t.chains[g]| ==>
            t.chains[g][i] in t.owner && t.owner[t.chains[g][i]] == g)
      && (forall k: nat :: k in t.owner ==> n <= k < |mem| && t.owner[k] < n && k in t.chains[t.owner[k]])
  {
    hide Linked, Once;
  }

  // The key fields decide the print; link, value and the occupied flag do not touch it.
  lemma SamePrint(c: Cell, next: nat, value: int, occupied: bool)
    ensures var d := c.(next := next, value := value, occupied := occupied);
      Canonical(d) == Canonical(c) && PrintOf(d) == PrintOf(c)
  {
  }

  lemma LinkPlaces(n: nat, mem: seq<Cell>, s: Shape, h: nat, last: nat, pick: nat, c: Cell)
    requires Placed(n, mem, s.owner, s.place) && h < n && n <= pick < |mem| && pick !in s.owner
    requires !c.occupied && last < |mem| && InChain(n, s.owner, last)
    ensures Placed(n, LinkedIn(mem, last, pick, c), s.owner[pick := h], s.place)
  {
    hide Canonical, PrintOf;
    SamePrint(mem[last], pick, mem[last].value, mem[last].occupied);
    assert !mem[pick].occupied;
  }

  // Occupying a stamped bucket with a value.
  lemma Fill(n: nat, mem: seq<Cell>, s: Shape, k: nat, v: int)
    requires Inv(n, mem, s) && k < |mem| && InChain(n, s.owner, k)
    requires !mem[k].occupied && Canonical(mem[k])
    requires Ident(HomeOf(n, s.owner, k), PrintOf(mem[k])) !in s.place
    ensures var id := Ident(HomeOf(n, s.owner, k), PrintOf(mem[k]));
      var after := mem[k := mem[k].(value := v, occupied := true)];
      && Inv(n, after, s.(place := s.place[id := k]))
      && Contents(after, s.place[id := k]) == Contents(mem, s.place)[id := v]
  {
    SameLinks(n, mem, mem[k := mem[k].(value := v, occupied := true)], s.chains, s.owner);
    FillPlaces(n, mem, s.owner, s.place, k, v);
    FillContents(n, mem, s.owner, s.place, k, v, Ident(HomeOf(n, s.owner, k), PrintOf(mem[k])));
  }

  lemma FillPlaces(n: nat, mem: seq<Cell>, owner: map<nat, nat>, place: map<Ident, nat>, k: nat, v: int)
    requires Placed(n, mem, owner, place) && k < |mem| && InChain(n, owner, k)
    requires !mem[k].occupied && Canonical(mem[k])
    requires Ident(HomeOf(n, owner, k), PrintOf(mem[k])) !in place
    ensures var id := Ident(HomeOf(n, owner, k), PrintOf(mem[k]));
      Placed(n, mem[k := mem[k].(value := v, occupied := true)], owner, place[id := k])
  {
    hide Canonical, PrintOf;
    SamePrint(mem[k], mem[k].next, v, true);
  }

  lemma FillContents(n: nat, mem: seq<Cell>, owner: map<nat, nat>, place: map<Ident, nat>, k: nat, v: int, id: Ident)
    requires Placed(n, mem, owner, place) && k < |mem| && !mem[k].occupied && id !in place
    ensures forall i :: i in place ==> place[i] < |mem|
    ensures Contents(mem[k := mem[k].(value := v, occupied := true)], place[id := k]) == Contents(mem, place)[id := v]
  {
    hide Canonical, PrintOf;
  }

  // Giving an occupied bucket another value.
  lemma Overwrite(n: nat, mem: seq<Cell>, s: Shape, id: Ident, v: int)
    requires Inv(n, mem, s) && id in s.place
    ensures s.place[id] < |mem| && mem[s.place[id]].occupied
    ensures var k := s.place[id];
      var after := mem[k := mem[k].(value := v, occupied := true)];
      Inv(n, after, s) && Contents(after, s.place) == Contents(mem, s.place)[id := v]
  {
    var k := s.place[id];
    SameLinks(n, mem, mem[k := mem[k].(value := v, occupied := true)], s.chains, s.owner);
  }

  // Turning an occupied bucket into a tombstone.
  lemma Vacate(n: nat, mem: seq<Cell>, s: Shape, id: Ident)
    requires Inv(n, mem, s) && id in s.place
    ensures var k := s.place[id];
      var after := mem[k := mem[k].(occupied := false)];
      && Inv(n, after, s.(place := s.place - {id}))
      && Contents(after, s.place - {id}) == Contents(mem, s.place) - {id}
  {
    hide Canonical, PrintOf, Linked, Once;
    var k := s.place[id];
    SameLinks(n, mem, mem[k := mem[k].(occupied := false)], s.chains, s.owner);
  }

  // Where the keys are after the second bucket of chain h moved into the primary slot.
  function MovedPlace(mem: seq<Cell>, place: map<Ident, nat>, h: nat, second: nat): map<Ident, nat>
    requires second < |mem|
  {
    if mem[second].occupied then place[Ident(h, PrintOf(mem[second])) := h] else place
  }

  // Moving the second bucket of chain h into its unoccupied primary slot.
  function PulledUp(mem: seq<Cell>, s: Shape, h: nat): Shape
    requires h < |s.chains| && s.chains[h] != [] && s.chains[h][0] < |mem|
  {
    var second := s.chains[h][0];
    Shape(s.chains[h := s.chains[h][1..]], s.owner - {second}, MovedPlace(mem, s.place, h, second))
  }

  lemma PullUp(n: nat, mem: seq<Cell>, s: Shape, h: nat)
    requires Inv(n, mem, s) && h < n && s.chains[h] != [] && !mem[h].occupied
    ensures n <= s.chains[h][0] < |mem|
    ensures var second := s.chains[h][0];
      var after := mem[h := mem[second]][second := ZERO];
      && Inv(n, after, PulledUp(mem, s, h))
      && Contents(after, PulledUp(mem, s, h).place) == Contents(mem, s.place)
      && PulledUp(mem, s, h).place.Keys == s.place.Keys
  {
    assert Linked(mem, n, h, s.chains[h]);
    PullUpRings(n, mem, s, h);
    PullUpPlaces(n, mem, s, h);
  }

  lemma PullUpRings(n: nat, mem: seq<Cell>, s: Shape, h: nat)
    requires Rings(n, mem, s.chains, s.owner) && h < n && s.chains[h] != [] && n <= s.chains[h][0] < |mem|
    ensures var second := s.chains[h][0];
      Rings(n, mem[h := mem[second]][second := ZERO], PulledUp(mem, s, h).chains, PulledUp(mem, s, h).owner)
  {
    PullUpChains(n, mem, s, h);
    PullUpOwners(n, mem, s, h);
  }

  lemma PullUpChains(n: nat, mem: seq<Cell>, s: Shape, h: nat)
    requires Rings(n, mem, s.chains, s.owner) && h < n && s.chains[h] != [] && n <= s.chains[h][0] < |mem|
    ensures var after := mem[h := mem[s.chains[h][0]]][s.chains[h][0] := ZERO];
      forall g: nat :: g < n ==>
        Linked(after, n, g, PulledUp(mem, s, h).chains[g]) && Once(PulledUp(mem, s, h).chains[g])
  {
    hide Linked, Once;
    var after := mem[h := mem[s.chains[h][0]]][s.chains[h][0] := ZERO];
    forall g: nat | g < n
      ensures Linked(after, n, g, PulledUp(mem, s, h).chains[g]) && Once(PulledUp(mem, s, h).chains[g])
    {
      if g == h {
        PullUpOwnChain(n, mem, s, h);
      } else {
        PullUpOtherChain(n, mem, s, h, g);
      }
    }
  }

  lemma PullUpOwnChain(n: nat, mem: seq<Cell>, s: Shape, h: nat)
    requires Rings(n, mem, s.chains, s.owner) && h < n && s.chains[h] != [] && n <= s.chains[h][0] < |mem|
    ensures Linked(mem[h := mem[s.chains[h][0]]][s.chains[h][0] := ZERO], n, h, s.chains[h][1..])
    ensures Once(s.chains[h][1..])
  {
    assert Linked(mem, n, h, s.chains[h]) && Once(s.chains[h]);
    ChainShrinks(mem, mem[h := mem[s.chains[h][0]]][s.chains[h][0] := ZERO], n, h, s.chains[h]);
  }

  lemma PullUpOtherChain(n: nat, mem: seq<Cell>, s: Shape, h: nat, g: nat)
    requires Rings(n, mem, s.chains, s.owner) && h < n && s.chains[h] != [] && n <= s.chains[h][0] < |mem|
    requires g < n && g != h
    ensures Linked(mem[h := mem[s.chains[h][0]]][s.chains[h][0] := ZERO], n, g, s.chains[g]) && Once(s.chains[g])
  {
    hide Once;
    assert Linked(mem, n, g, s.chains[g]);
    ChainFrame(mem, mem[h := mem[s.chains[h][0]]][s.chains[h][0] := ZERO], n, g, s.chains[g]);
  }

  lemma PullUpOwners(n: nat, mem: seq<Cell>, s: Shape, h: nat)
    requires Rings(n, mem, s.chains, s.owner) && h < n && s.chains[h] != [] && n <= s.chains[h][0] < |mem|
    ensures var t := PulledUp(mem, s, h);
      && (forall g: nat, i: nat :: g < n && i < |t.chains[g]| ==>
            t.chains[g][i] in t.owner && t.owner[t.chains[g][i]] == g)
      && (forall k: nat :: k in t.owner ==> n <= k < |mem| && t.owner[k] < n && k in t.chains[t.owner[k]])
  {
    var t := PulledUp(mem, s, h);
    forall g: nat, i: nat | g < n && i < |t.chains[g]|
      ensures t.chains[g][i] in t.owner && t.owner[t.chains[g][i]] == g
    {
      assert t.chains[g][i] == s.chains[g][if g == h then i + 1 else i];
      assert Once(s.chains[h]);
      assert s.chains[h][0] in s.owner;
    }
    forall k: nat | k in t.owner
      ensures n <= k < |mem| && t.owner[k] < n && k in t.chains[t.owner[k]]
    {
      StillInChain(s.chains[s.owner[k]], k);
    }
  }

  lemma StillInChain(chain: seq<nat>, k: nat)
    requires k in chain
    ensures k != chain[0] ==> k in chain[1..]
  {
    assert chain == [chain[0]] + chain[1..];
  }

  lemma PullUpPlaces(n: nat, mem: seq<Cell>, s: Shape, h: nat)
    requires Inv(n, mem, s) && h < n && s.chains[h] != [] && !mem[h].occupied && n <= s.chains[h][0] < |mem|
    ensures var second := s.chains[h][0];
      var after := mem[h := mem[second]][second := ZERO];
      && Placed(n, after, PulledUp(mem, s, h).owner, PulledUp(mem, s, h).place)
      && Contents(after, PulledUp(mem, s, h).place) == Contents(mem, s.place)
      && PulledUp(mem, s, h).place.Keys == s.place.Keys
  {
    var second := s.chains[h][0];
    assert second in s.owner && s.owner[second] == h;
    MoveUp(n, mem, s.owner, s.place, h, second);
    MoveUpContents(n, mem, s.owner, s.place, h, second);
  }

  lemma MoveUp(n: nat, mem: seq<Cell>, owner: map<nat, nat>, place: map<Ident, nat>, h: nat, second: nat)
    requires Placed(n, mem, owner, place) && h < n <= second < |mem|
    requires !mem[h].occupied && second in owner && owner[second] == h
    ensures Placed(n, mem[h := mem[second]][second := ZERO], owner - {second}, MovedPlace(mem, place, h, second))
  {
    hide Canonical, PrintOf;
  }

  lemma MoveUpContents(n: nat, mem: seq<Cell>, owner: map<nat, nat>, place: map<Ident, nat>, h: nat, second: nat)
    requires Placed(n, mem, owner, place) && h < n <= second < |mem|
    requires !mem[h].occupied && second in owner && owner[second] == h
    ensures var after := MovedPlace(mem, place, h, second);
      && after.Keys == place.Keys
      && (forall id :: id in after ==> after[id] < |mem|)
      && Contents(mem[h := mem[second]][second := ZERO], after) == Contents(mem, place)
  {
    hide Placed, Canonical, PrintOf;
    var after := MovedPlace(mem, place, h, second);
    MovedKeys(n, mem, owner, place, h, second);
    forall id | id in place
      ensures after[id] < |mem| && place[id] < |mem|
      ensures mem[h := mem[second]][second := ZERO][after[id]].value == mem[place[id]].value
    {
      MovedValue(n, mem, owner, place, h, second, id);
    }
  }

  lemma MovedKeys(n: nat, mem: seq<Cell>, owner: map<nat, nat>, place: map<Ident, nat>, h: nat, second: nat)
    requires Placed(n, mem, owner, place) && h < n <= second < |mem| && second in owner && owner[second] == h
    ensures MovedPlace(mem, place, h, second).Keys == place.Keys
    ensures mem[second].occupied ==>
      Ident(h, PrintOf(mem[second])) in place && place[Ident(h, PrintOf(mem[second]))] == second
  {
    hide Canonical, PrintOf;
  }

  lemma MovedValue(n: nat, mem: seq<Cell>, owner: map<nat, nat>, place: map<Ident, nat>, h: nat, second: nat, id: Ident)
    requires Placed(n, mem, owner, place) && h < n <= second < |mem| && !mem[h].occupied
    requires second in owner && owner[second] == h && id in place
    ensures id in MovedPlace(mem, place, h, second)
    ensures var at := MovedPlace(mem, place, h, second)[id];
      && at < |mem| && place[id] < |mem|
      && mem[h := mem[second]][second := ZERO][at].value == mem[place[id]].value
  {
    hide Canonical, PrintOf;
    MovedKeys(n, mem, owner, place, h, second);
  }
}
