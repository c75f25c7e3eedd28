// Chains of buckets as values: the shape every reachable table keeps, and what linking, filling and clearing do to it.
module HashChains {
  import opened HashBuckets

  // A key as the table sees it: the primary slot it hashes to and its print.
  datatype Ident = Ident(home: nat, mark: Print)

  // chains[h]: overflow buckets of primary slot h, in link order; owner: the primary slot of each overflow bucket;
  // place: where each stored key is.
  datatype Shape = Shape(chains: seq<seq<nat>>, owner: map<nat, nat>, place: map<Ident, nat>)

  // Where the link of a chain's i-th bucket leads: to the next one, and from the last one back to the primary.
  function LinkOf(chain: seq<nat>, i: nat, h: nat): nat {
    if i < |chain| then chain[i] else h
  }

  ghost predicate Linked(mem: seq<Cell>, n: nat, h: nat, chain: seq<nat>) {
    && h < n <= |mem|
    && (forall i: nat :: i < |chain| ==> n <= chain[i] < |mem|)
    && (if chain == [] then mem[h].next < n else mem[h].next == chain[0])
    && (forall i: nat :: i < |chain| ==> mem[chain[i]].next == LinkOf(chain, i + 1, h))
  }

  ghost predicate Once(s: seq<nat>) {
    forall i: nat, j: nat :: i < j < |s| ==> s[i] != s[j]
  }

  // Overflow chains are finite, disjoint, and return to their own primary slot.
  ghost predicate Rings(n: nat, mem: seq<Cell>, chains: seq<seq<nat>>, owner: map<nat, nat>) {
    && 0 < n <= |mem| && |chains| == n
    && (forall h: nat :: h < n ==> Linked(mem, n, h, chains[h]) && Once(chains[h]))
    && (forall h: nat, i: nat :: h < n && i < |chains[h]| ==> chains[h][i] in owner && owner[chains[h][i]] == h)
    && (forall k: nat :: k in owner ==> n <= k < |mem| && owner[k] < n && k in chains[owner[k]])
  }

  predicate InChain(n: nat, owner: map<nat, nat>, k: nat) {
    k < n || k in owner
  }

  function HomeOf(n: nat, owner: map<nat, nat>, k: nat): nat
    requires InChain(n, owner, k)
  {
    if k < n then k else owner[k]
  }

  // Occupied buckets and stored keys correspond one to one; buckets outside every chain are clear.
  ghost predicate Placed(n: nat, mem: seq<Cell>, owner: map<nat, nat>, place: map<Ident, nat>) {
    && (forall k: nat :: k < |mem| && mem[k].occupied ==>
          && InChain(n, owner, k)
          && Canonical(mem[k])
          && Ident(HomeOf(n, owner, k), PrintOf(mem[k])) in place
          && place[Ident(HomeOf(n, owner, k), PrintOf(mem[k]))] == k)
    && (forall id :: id in place ==>
          && place[id] < |mem| && mem[place[id]].occupied
          && InChain(n, owner, place[id])
          && id == Ident(HomeOf(n, owner, place[id]), PrintOf(mem[place[id]])))
    && (forall k: nat :: k < |mem| && !InChain(n, owner, k) ==> mem[k] == ZERO)
  }

  ghost predicate Inv(n: nat, mem: seq<Cell>, s: Shape) {
    Rings(n, mem, s.chains, s.owner) && Placed(n, mem, s.owner, s.place)
  }

  lemma Bounds(n: nat, mem: seq<Cell>, s: Shape)
    requires Inv(n, mem, s)
    ensures 0 < |s.chains| == n <= |mem|
    ensures forall id :: id in s.place ==> s.place[id] < |mem|
  {
  }

  // The map the table stands for.
  ghost function Contents(mem: seq<Cell>, place: map<Ident, nat>): map<Ident, int>
    requires forall id :: id in place ==> place[id] < |mem|
  {
    map id | id in place :: mem[place[id]].value
  }

  // ---------- following the links ----------

  // The search loop on bare memory: from bucket `at`, the first occupied match on the way, following at most
  // `fuel` links; -1 when the way ends.
  function Probe(mem: seq<Cell>, n: nat, at: nat, p: Print, fuel: nat): int
    decreases fuel
  {
    if |mem| <= at then -1
    else if mem[at].occupied && Matches(mem[at], p) then at
    else if mem[at].next < n || fuel == 0 then -1
    else Probe(mem, n, mem[at].next, p, fuel - 1)
  }

  // The i-th bucket on the way around chain h.
  function At(chain: seq<nat>, h: nat, i: nat): nat
    requires i <= |chain|
  {
    if i == 0 then h else chain[i - 1]
  }

  lemma LinkAt(mem: seq<Cell>, n: nat, h: nat, chain: seq<nat>, i: nat)
    requires Linked(mem, n, h, chain) && i <= |chain|
    ensures At(chain, h, i) < |mem|
    ensures i < |chain| ==> mem[At(chain, h, i)].next == At(chain, h, i + 1) && n <= At(chain, h, i + 1)
    ensures i == |chain| ==> mem[At(chain, h, i)].next < n
    ensures 0 < i == |chain| ==> mem[At(chain, h, i)].next == h
  {
  }

  lemma LinkIn(n: nat, mem: seq<Cell>, s: Shape, h: nat, i: nat)
    requires Inv(n, mem, s) && h < n && i <= |s.chains[h]|
    ensures |s.chains| == n
    ensures At(s.chains[h], h, i) < |mem|
    ensures i < |s.chains[h]| ==>
      mem[At(s.chains[h], h, i)].next == At(s.chains[h], h, i + 1) && n <= At(s.chains[h], h, i + 1)
    ensures i == |s.chains[h]| ==> mem[At(s.chains[h], h, i)].next < n
    ensures 0 < i == |s.chains[h]| ==> mem[At(s.chains[h], h, i)].next == h
  {
    LinkAt(mem, n, h, s.chains[h], i);
  }

  lemma HomeAt(n: nat, mem: seq<Cell>, s: Shape, h: nat, i: nat)
    requires Rings(n, mem, s.chains, s.owner) && h < n && i <= |s.chains[h]|
    ensures InChain(n, s.owner, At(s.chains[h], h, i)) && HomeOf(n, s.owner, At(s.chains[h], h, i)) == h
    ensures At(s.chains[h], h, i) < |mem|
    ensures 0 < i ==> n <= At(s.chains[h], h, i)
  {
    assert Linked(mem, n, h, s.chains[h]);
  }

  // An occupied bucket of chain h matches a key exactly when it is the key's place.
  lemma MatchIsPlace(n: nat, mem: seq<Cell>, s: Shape, h: nat, i: nat, p: Print)
    requires Inv(n, mem, s) && h < n && i <= |s.chains[h]| && p.Proper()
    ensures var k := At(s.chains[h], h, i);
      && k < |mem|
      && (mem[k].occupied && Matches(mem[k], p) <==> Ident(h, p) in s.place && s.place[Ident(h, p)] == k)
  {
    var k := At(s.chains[h], h, i);
    HomeAt(n, mem, s, h, i);
    if mem[k].occupied {
      CanonicalMatchesOnce(mem[k], p);
    }
  }

  lemma PlaceOnPath(n: nat, mem: seq<Cell>, s: Shape, id: Ident)
    requires Inv(n, mem, s) && id in s.place
    ensures id.home < n
    ensures exists i: nat :: i <= |s.chains[id.home]| && At(s.chains[id.home], id.home, i) == s.place[id]
  {
    var k := s.place[id];
    if k < n {
      assert At(s.chains[id.home], id.home, 0) == k;
    } else {
      var j :| 0 <= j < |s.chains[id.home]| && s.chains[id.home][j] == k;
      assert At(s.chains[id.home], id.home, j + 1) == k;
    }
  }

  // No bucket before the i-th on the way around chain h is the place of the key.
  ghost predicate NotBefore(s: Shape, h: nat, i: nat, p: Print) {
    && h < |s.chains| && i <= |s.chains[h]| + 1
    && forall j: nat :: j < i && Ident(h, p) in s.place ==> s.place[Ident(h, p)] != At(s.chains[h], h, j)
  }

  // In a well-formed table a probe from the primary slot finds exactly the place of the key.
  lemma {:induction false} ProbeFollowsPath(n: nat, mem: seq<Cell>, s: Shape, h: nat, i: nat, p: Print, fuel: nat)
    requires Inv(n, mem, s) && h < n && i <= |s.chains[h]| && |s.chains[h]| - i <= fuel
    requires p.Proper() && NotBefore(s, h, i, p)
    ensures Probe(mem, n, At(s.chains[h], h, i), p, fuel)
         == if Ident(h, p) in s.place then s.place[Ident(h, p)] else -1
    decreases |s.chains[h]| - i
  {
    hide Inv, Rings, Placed, Linked, Matches;
    MatchIsPlace(n, mem, s, h, i, p);
    LinkIn(n, mem, s, h, i);
    if Ident(h, p) in s.place && s.place[Ident(h, p)] == At(s.chains[h], h, i) {
    } else if i < |s.chains[h]| {
      ProbeFollowsPath(n, mem, s, h, i + 1, p, fuel - 1);
    } else if Ident(h, p) in s.place {
      PlaceOnPath(n, mem, s, Ident(h, p));
    }
  }

  // The search has passed the i-th bucket of the way, bucket k, without a match.
  ghost predicate Passed(mem: seq<Cell>, s: Shape, h: nat, i: nat, p: Print, k: nat) {
    h < |s.chains| && i <= |s.chains[h]| && k == At(s.chains[h], h, i) && k < |mem| && NotBefore(s, h, i + 1, p)
  }

  lemma PassFirst(n: nat, mem: seq<Cell>, s: Shape, h: nat, p: Print)
    requires Inv(n, mem, s) && h < n && p.Proper()
    ensures h < |mem|
    ensures mem[h].occupied && Matches(mem[h], p) ==> Ident(h, p) in s.place && s.place[Ident(h, p)] == h
    ensures !(mem[h].occupied && Matches(mem[h], p)) ==> Passed(mem, s, h, 0, p, h)
  {
    MatchIsPlace(n, mem, s, h, 0, p);
  }

  lemma PassNext(n: nat, mem: seq<Cell>, s: Shape, h: nat, i: nat, p: Print, k: nat)
    requires Inv(n, mem, s) && h < n && p.Proper()
    requires Passed(mem, s, h, i, p, k) && k < |mem| && n <= mem[k].next
    ensures h < |s.chains| && i < |s.chains[h]| && mem[k].next < |mem|
    ensures var next := mem[mem[k].next];
      next.occupied && Matches(next, p) ==> Ident(h, p) in s.place && s.place[Ident(h, p)] == mem[k].next
    ensures var next := mem[mem[k].next];
      !(next.occupied && Matches(next, p)) ==> Passed(mem, s, h, i + 1, p, mem[k].next)
  {
    LinkIn(n, mem, s, h, i);
    HomeAt(n, mem, s, h, i + 1);
    MatchIsPlace(n, mem, s, h, i + 1, p);
  }

  lemma PassEnd(n: nat, mem: seq<Cell>, s: Shape, h: nat, i: nat, p: Print, k: nat)
    requires Inv(n, mem, s) && h < n
    requires Passed(mem, s, h, i, p, k) && k < |mem| && mem[k].next < n
    ensures Ident(h, p) !in s.place
    ensures EndsChain(s, h, k)
  {
    LinkIn(n, mem, s, h, i);
    if Ident(h, p) in s.place {
      PlaceOnPath(n, mem, s, Ident(h, p));
    }
  }

  ghost predicate EndsChain(s: Shape, h: nat, last: nat) {
    h < |s.chains| && last == At(s.chains[h], h, |s.chains[h]|)
  }

  // ---------- lists without repetition ----------

  function Upto(m: nat): (s: set<nat>)
    ensures |s| == m && forall k: nat :: k in s <==> k < m
  {
    if m == 0 then {} else Upto(m - 1) + {m - 1}
  }

  function Elements(s: seq<nat>): set<nat> {
    set i: nat | i < |s| :: s[i]
  }

  lemma {:induction false} OnceCounts(s: seq<nat>)
    requires Once(s)
    ensures |Elements(s)| == |s|
  {
    if s != [] {
      var front := s[..|s| - 1];
      OnceCounts(front);
      assert forall i: nat :: i < |front| ==> front[i] == s[i];
      assert Elements(s) == Elements(front) + {s[|s| - 1]};
      assert s[|s| - 1] !in Elements(front);
    }
  }

  lemma OnceFits(s: seq<nat>, m: nat)
    requires Once(s) && forall i: nat :: i < |s| ==> s[i] < m
    ensures |s| <= m
  {
    OnceCounts(s);
    assert Elements(s) <= Upto(m);
    SubsetSize(Elements(s), Upto(m));
  }

  lemma {:induction false} SubsetSize(a: set<nat>, b: set<nat>)
    requires a <= b
    ensures |a| <= |b|
  {
    if a != {} {
      var x :| x in a;
      SubsetSize(a - {x}, b - {x});
    }
  }
}
