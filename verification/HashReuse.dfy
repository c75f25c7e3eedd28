// Which slots the pool may hand back to the hash index: exactly those behind the primary ones.
module HashReuse {
  import opened HashBuckets
  import opened HashChains
  import opened HashSteps

  // Following the links finds each key of the map with its value, and no other key.
  ghost predicate Serves(mem: seq<Cell>, n: nat, want: map<Ident, int>) {
    forall h: nat, p: Print :: h < n && p.Proper() ==> Answers(mem, n, want, h, p)
  }

  ghost predicate Answers(mem: seq<Cell>, n: nat, want: map<Ident, int>, h: nat, p: Print) {
    var k := Probe(mem, n, h, p, |mem|);
    if Ident(h, p) in want then 0 <= k < |mem| && mem[k].value == want[Ident(h, p)] else k == -1
  }

  lemma WellFormedServes(n: nat, mem: seq<Cell>, s: Shape)
    requires Inv(n, mem, s)
    ensures Serves(mem, n, Contents(mem, s.place))
  {
    forall h: nat, p: Print | h < n && p.Proper()
      ensures Answers(mem, n, Contents(mem, s.place), h, p)
    {
      assert Linked(mem, n, h, s.chains[h]) && Once(s.chains[h]);
      OnceFits(s.chains[h], |mem|);
      ProbeFollowsPath(n, mem, s, h, 0, p, |mem|);
    }
  }

  // The bucket memory after an insertion that needed a new bucket and got slot `pick`: stamp it, link it behind
  // the last bucket of the chain, send its own link to the primary slot, give it the value and occupy it.
  function Inserted(mem: seq<Cell>, h: nat, last: nat, pick: nat, p: Print, v: int): (after: seq<Cell>)
    requires last < |mem| && pick < |mem| && p.Proper()
    ensures |after| == |mem|
  {
    var stamped := mem[pick := Stamped(mem[pick], p)];
    var linked := stamped[last := stamped[last].(next := pick)];
    var closed := linked[pick := linked[pick].(next := h)];
    closed[pick := closed[pick].(value := v, occupied := true)]
  }

  // Nothing on a way of i links matches, and the way ends.
  lemma {:induction false} ProbeEnds(mem: seq<Cell>, n: nat, chain: seq<nat>, h: nat, i: nat, p: Print, fuel: nat)
    requires i <= |chain|
    requires forall j: nat :: i <= j <= |chain| ==> At(chain, h, j) < |mem|
    requires forall j: nat :: i <= j <= |chain| ==> !(mem[At(chain, h, j)].occupied && Matches(mem[At(chain, h, j)], p))
    requires forall j: nat :: i <= j < |chain| ==> mem[At(chain, h, j)].next == At(chain, h, j + 1)
    requires mem[At(chain, h, |chain|)].next < n
    ensures Probe(mem, n, At(chain, h, i), p, fuel) == -1
    decreases fuel
  {
    if i < |chain| && fuel != 0 {
      ProbeEnds(mem, n, chain, h, i + 1, p, fuel - 1);
    }
  }

  lemma FreshSlotServes(n: nat, mem: seq<Cell>, s: Shape, h: nat, pick: nat, p: Print, v: int)
    requires Inv(n, mem, s) && h < n && p.Storable() && Ident(h, p) !in s.place
    requires n <= pick < |mem| && pick !in s.owner
    ensures At(s.chains[h], h, |s.chains[h]|) < |mem|
    ensures Serves(Inserted(mem, h, At(s.chains[h], h, |s.chains[h]|), pick, p, v), n,
                   Contents(mem, s.place)[Ident(h, p) := v])
  {
    var c := Stamped(ZERO, p).(next := h);
    var last := At(s.chains[h], h, |s.chains[h]|);
    var linked := LinkedIn(mem, last, pick, c);
    UnusedIsClear(n, mem, s, pick);
    LinkFresh(n, mem, s, h, pick, p);
    FilledIsInserted(mem, h, last, pick, p, v);
    hide *;
    Fill(n, linked, Extended(s, h, pick), pick, v);
    WellFormedServes(n, linked[pick := linked[pick].(value := v, occupied := true)],
                     Extended(s, h, pick).(place := Extended(s, h, pick).place[Ident(h, p) := pick]));
  }

  lemma UnusedIsClear(n: nat, mem: seq<Cell>, s: Shape, pick: nat)
    requires Inv(n, mem, s) && n <= pick < |mem| && pick !in s.owner
    ensures mem[pick] == ZERO
  {
  }

  lemma FilledIsInserted(mem: seq<Cell>, h: nat, last: nat, pick: nat, p: Print, v: int)
    requires last < |mem| && pick < |mem| && last != pick && mem[pick] == ZERO && p.Proper()
    ensures var linked := LinkedIn(mem, last, pick, Stamped(ZERO, p).(next := h));
      linked[pick := linked[pick].(value := v, occupied := true)] == Inserted(mem, h, last, pick, p, v)
  {
  }

  lemma LinkFresh(n: nat, mem: seq<Cell>, s: Shape, h: nat, pick: nat, p: Print)
    requires Inv(n, mem, s) && h < n && p.Storable()
    requires n <= pick < |mem| && pick !in s.owner
    ensures var last := At(s.chains[h], h, |s.chains[h]|);
      && last < |mem| && last != pick
      && var linked := LinkedIn(mem, last, pick, Stamped(ZERO, p).(next := h));
      && Inv(n, linked, Extended(s, h, pick)) && Extended(s, h, pick).place == s.place
      && InChain(n, Extended(s, h, pick).owner, pick) && HomeOf(n, Extended(s, h, pick).owner, pick) == h
      && !linked[pick].occupied && Canonical(linked[pick]) && PrintOf(linked[pick]) == p
      && Contents(linked, s.place) == Contents(mem, s.place)
  {
    var last := At(s.chains[h], h, |s.chains[h]|);
    UnusedIsClear(n, mem, s, pick);
    Link(n, mem, s, h, pick, Stamped(ZERO, p).(next := h));
    HomeAt(n, mem, s, h, |s.chains[h]|);
    StampedMatchesOnlyIts(ZERO, p, p);
    LinkedContents(n, mem, s, last, pick, Stamped(ZERO, p).(next := h));
  }

  lemma LinkedContents(n: nat, mem: seq<Cell>, s: Shape, last: nat, pick: nat, c: Cell)
    requires Inv(n, mem, s) && last < |mem| && pick < |mem| && !mem[pick].occupied
    ensures Contents(LinkedIn(mem, last, pick, c), s.place) == Contents(mem, s.place)
  {
  }

  // A primary slot that comes back from the pool swallows the new key, or the key that lives there.
  lemma PrimarySlotLoses(n: nat, mem: seq<Cell>, s: Shape, h: nat, pick: nat, p: Print, v: int)
    requires Inv(n, mem, s) && h < n && p.Storable() && Ident(h, p) !in s.place
    requires mem[h].occupied && pick < n
    ensures At(s.chains[h], h, |s.chains[h]|) < |mem|
    ensures !Serves(Inserted(mem, h, At(s.chains[h], h, |s.chains[h]|), pick, p, v), n,
                    Contents(mem, s.place)[Ident(h, p) := v])
  {
    HomeAt(n, mem, s, h, |s.chains[h]|);
    if pick == h {
      OwnPrimaryLoses(n, mem, s, h, p, v);
    } else {
      OtherPrimaryLoses(n, mem, s, h, pick, p, v);
    }
  }

  lemma OwnPrimaryLoses(n: nat, mem: seq<Cell>, s: Shape, h: nat, p: Print, v: int)
    requires Inv(n, mem, s) && h < n && p.Storable() && Ident(h, p) !in s.place
    requires mem[h].occupied && At(s.chains[h], h, |s.chains[h]|) < |mem|
    ensures !Serves(Inserted(mem, h, At(s.chains[h], h, |s.chains[h]|), h, p, v), n,
                    Contents(mem, s.place)[Ident(h, p) := v])
  {
    var q := PrintOf(mem[h]);
    var after := Inserted(mem, h, At(s.chains[h], h, |s.chains[h]|), h, p, v);
    assert Ident(h, q) in s.place && q.Proper() && q != p;
    StampedMatchesOnlyIts(mem[h], p, q);
    assert after[h].next == h && !Matches(after[h], q);
    assert Probe(after, n, h, q, |after|) == -1;
    assert !Answers(after, n, Contents(mem, s.place)[Ident(h, p) := v], h, q);
  }

  lemma OtherPrimaryLoses(n: nat, mem: seq<Cell>, s: Shape, h: nat, pick: nat, p: Print, v: int)
    requires Inv(n, mem, s) && h < n && p.Storable() && Ident(h, p) !in s.place
    requires pick < n && pick != h && At(s.chains[h], h, |s.chains[h]|) < |mem|
    ensures !Serves(Inserted(mem, h, At(s.chains[h], h, |s.chains[h]|), pick, p, v), n,
                    Contents(mem, s.place)[Ident(h, p) := v])
  {
    hide Inv, Rings, Placed, Linked, Matches, Stamped;
    Bounds(n, mem, s);
    var chain := s.chains[h];
    var last := At(chain, h, |chain|);
    var after := Inserted(mem, h, last, pick, p, v);
    forall j: nat | j <= |chain|
      ensures At(chain, h, j) < |mem| && At(chain, h, j) != pick && (j < |chain| ==> At(chain, h, j) != last)
      ensures !(mem[At(chain, h, j)].occupied && Matches(mem[At(chain, h, j)], p))
      ensures j < |chain| ==> mem[At(chain, h, j)].next == At(chain, h, j + 1)
    {
      PathOnce(n, mem, s, h, j);
      MatchIsPlace(n, mem, s, h, j, p);
      LinkIn(n, mem, s, h, j);
    }
    RelinkKeepsMatches(mem[last], pick, p);
    ProbeEnds(after, n, chain, h, 0, p, |after|);
    assert !Answers(after, n, Contents(mem, s.place)[Ident(h, p) := v], h, p);
  }

  lemma RelinkKeepsMatches(c: Cell, next: nat, p: Print)
    ensures Matches(c.(next := next), p) <==> Matches(c, p)
  {
  }

  // The way around a chain meets no bucket twice, and no other primary slot.
  lemma PathOnce(n: nat, mem: seq<Cell>, s: Shape, h: nat, j: nat)
    requires Inv(n, mem, s) && h < n && j <= |s.chains[h]|
    ensures |s.chains| == n
    ensures j < |s.chains[h]| ==> At(s.chains[h], h, j) != At(s.chains[h], h, |s.chains[h]|)
    ensures At(s.chains[h], h, j) == h || n <= At(s.chains[h], h, j)
  {
    assert Linked(mem, n, h, s.chains[h]) && Once(s.chains[h]);
  }

  // The exact condition on the pool: an insertion that needs a new bucket is served correctly if and only if
  // the slot handed out lies behind the primary slots.
  lemma ServedIffBehindPrimaries(n: nat, mem: seq<Cell>, s: Shape, h: nat, pick: nat, p: Print, v: int)
    requires Inv(n, mem, s) && h < n && p.Storable() && Ident(h, p) !in s.place
    requires mem[h].occupied && pick < |mem| && pick !in s.owner
    ensures At(s.chains[h], h, |s.chains[h]|) < |mem|
    ensures n <= pick <==>
      Serves(Inserted(mem, h, At(s.chains[h], h, |s.chains[h]|), pick, p, v), n,
             Contents(mem, s.place)[Ident(h, p) := v])
  {
    if n <= pick {
      FreshSlotServes(n, mem, s, h, pick, p, v);
    } else {
      PrimarySlotLoses(n, mem, s, h, pick, p, v);
    }
  }

  // Keys of 256 bytes and more are never found again: no bucket's one-byte size equals their length.
  lemma {:induction false} LongKeysNeverFound(mem: seq<Cell>, n: nat, at: nat, p: Print, fuel: nat)
    requires p.Proper() && !p.Storable()
    requires forall k: nat :: k < |mem| ==> mem[k].size <= 255
    ensures Probe(mem, n, at, p, fuel) == -1
    decreases fuel
  {
    if at < |mem| && fuel != 0 {
      LongKeysNeverFound(mem, n, mem[at].next, p, fuel - 1);
    }
  }
}
