// Whole runs of the hash index, over a pool that hands out fresh slots and, in any order, released overflow slots.
module HashRuns {
  import opened Bytes
  import opened HashBuckets
  import opened Bits
  import opened HashChains
  import opened HashReuse
  import opened MurmurHashTables

  // `choice` says what the pool answers if an insertion asks it for a bucket: the released slot with that index among
  // those it holds, or a fresh slot if there is none.
  datatype Op =
    | Insert(key: Key, value: int, payloadEmpty: bool, choice: nat)
    | Delete(key: Key)
    | Search(key: Key)

  datatype Answer = Done(ok: bool) | Found(value: int) | Missing

  // Keys a run may insert: those whose length the one-byte size field holds.
  predicate Fits(op: Op) {
    op.Insert? && op.key.Key? ==> |op.key.bytes| <= 255
  }

  // The index as a map: the answer to an operation and the map after it.
  function AnswerOf(hash: Hash, n: nat, m: map<Ident, int>, op: Op): Answer
    requires 0 < n
  {
    match op
    case Insert(key, _, payloadEmpty, _) => Done(payloadEmpty && key.Usable())
    case Delete(_) => Done(true)
    case Search(key) =>
      if key.Usable() && IdentOf(hash, n, key.bytes) in m then Found(m[IdentOf(hash, n, key.bytes)]) else Missing
  }

  function MapAfter(hash: Hash, n: nat, m: map<Ident, int>, op: Op): map<Ident, int>
    requires 0 < n
  {
    match op
    case Insert(key, value, payloadEmpty, _) =>
      if payloadEmpty && key.Usable() then m[IdentOf(hash, n, key.bytes) := Wrap48(value)] else m
    case Delete(key) => if key.Usable() then m - {IdentOf(hash, n, key.bytes)} else m
    case Search(_) => m
  }

  function Answers(hash: Hash, n: nat, m: map<Ident, int>, ops: seq<Op>): seq<Answer>
    requires 0 < n
    decreases |ops|
  {
    if ops == [] then []
    else [AnswerOf(hash, n, m, ops[0])] + Answers(hash, n, MapAfter(hash, n, m, ops[0]), ops[1..])
  }

  // The released slots a pool holds: behind the primary ones, in no chain, each once.
  ghost predicate Spare(n: nat, buckets: nat, owner: map<nat, nat>, pool: seq<nat>) {
    && (forall i: nat :: i < |pool| ==> n <= pool[i] < buckets && pool[i] !in owner)
    && Once(pool)
  }

  // Every run of the table from initialisation gives the answers of the map, whichever released overflow slots the
  // pool hands out again and when.
  method Replay(hash: Hash, n: nat, ops: seq<Op>) returns (answers: seq<Answer>)
    requires PowerOfTwo(n) && n + |ops| <= 0x2000_0000
    requires forall i :: 0 <= i < |ops| ==> Fits(ops[i])
    ensures answers == Answers(hash, n, map[], ops)
  {
    hide *;
    LinkBits();
    var table := new MurmurHashTable.Init(hash, n);
    table.Opened();
    answers := [];
    var pool: seq<nat> := [];
    AnswersFrom(hash, n, ops, map[], answers);
    NoneSpare(n, |table.buckets|, table.shape.owner);
    var i := 0;
    while i < |ops|
      invariant i <= |ops| && 0 < n && table.Valid() && fresh(table)
      invariant forall b :: b in table.buckets ==> fresh(b)
      invariant table.hash == hash && table.bucketNum == n && |table.buckets| <= n + i
      invariant Spare(n, |table.buckets|, table.shape.owner, pool)
      invariant Joined(hash, n, ops, i, table.Map(), answers)
    {
      JoinedStep(hash, n, ops, i, table.Map(), answers);
      assert forall j :: 0 <= j < |table.buckets| ==> table.buckets[j] in table.buckets;
      var answer;
      answer, pool := Apply(table, ops[i], pool);
      answers := answers + [answer];
      i := i + 1;
    }
    JoinedAll(hash, n, ops, i, table.Map(), answers);
  }

  // A link has 29 bits.
  lemma LinkBits()
    ensures MAX_LINK == 0x2000_0000
  {
  }

  lemma NoneSpare(n: nat, buckets: nat, owner: map<nat, nat>)
    ensures Spare(n, buckets, owner, [])
  {
  }

  lemma SpareIs(n: nat, buckets: nat, owner: map<nat, nat>, pool: seq<nat>, i: nat)
    requires Spare(n, buckets, owner, pool) && i < |pool|
    ensures n <= pool[i] < buckets && pool[i] !in owner
  {
  }

  lemma SlotSpent(n: nat, buckets: nat, more: nat, before: Shape, after: Shape, pool: seq<nat>, i: nat, taken: bool)
    requires Spare(n, buckets, before.owner, pool) && i < |pool| && buckets <= more
    requires SlotTaken(before, after, taken, pool[i])
    ensures Spare(n, more, after.owner, if taken then pool[..i] + pool[i + 1..] else pool)
  {
    var rest := pool[..i] + pool[i + 1..];
    forall k: nat | k < |rest|
      ensures rest[k] == pool[if k < i then k else k + 1]
    {
    }
  }

  lemma FreshSpent(n: nat, buckets: nat, more: nat, before: Shape, after: Shape, pool: seq<nat>, taken: bool)
    requires Spare(n, buckets, before.owner, pool) && buckets <= more
    requires SlotTaken(before, after, taken, buckets)
    ensures Spare(n, more, after.owner, pool)
  {
  }

  lemma SlotGained(n: nat, buckets: nat, before: Shape, after: Shape, pool: seq<nat>, released: int)
    requires Spare(n, buckets, before.owner, pool) && SlotReleased(n, before, after, released) && released < buckets
    ensures Spare(n, buckets, after.owner, if n <= released then pool + [released] else pool)
  {
  }

  // The answers given so far, and those still due from the map reached, make up the answers to the whole run.
  ghost predicate Joined(hash: Hash, n: nat, ops: seq<Op>, i: nat, m: map<Ident, int>, answers: seq<Answer>)
    requires 0 < n && i <= |ops|
  {
    answers + Answers(hash, n, m, ops[i..]) == Answers(hash, n, map[], ops)
  }

  lemma AnswersFrom(hash: Hash, n: nat, ops: seq<Op>, m: map<Ident, int>, answers: seq<Answer>)
    requires 0 < n && m == map[] && answers == []
    ensures Joined(hash, n, ops, 0, m, answers)
  {
    assert ops[0..] == ops;
  }

  lemma JoinedStep(hash: Hash, n: nat, ops: seq<Op>, i: nat, m: map<Ident, int>, answers: seq<Answer>)
    requires 0 < n && i < |ops| && Joined(hash, n, ops, i, m, answers)
    ensures Joined(hash, n, ops, i + 1, MapAfter(hash, n, m, ops[i]), answers + [AnswerOf(hash, n, m, ops[i])])
  {
    assert ops[i..][0] == ops[i] && ops[i..][1..] == ops[i + 1..];
  }

  lemma JoinedAll(hash: Hash, n: nat, ops: seq<Op>, i: nat, m: map<Ident, int>, answers: seq<Answer>)
    requires 0 < n && i == |ops| && Joined(hash, n, ops, i, m, answers)
    ensures answers == Answers(hash, n, map[], ops)
  {
    assert ops[i..] == [];
  }

  method Apply(table: MurmurHashTable, op: Op, pool: seq<nat>) returns (answer: Answer, rest: seq<nat>)
    requires table.Valid() && Fits(op) && |table.buckets| < MAX_LINK
    requires Spare(table.bucketNum, |table.buckets|, table.shape.owner, pool)
    modifies table, table.buckets
    ensures table.Valid() && table.bucketNum == old(table.bucketNum) && 0 < table.bucketNum
    ensures answer == AnswerOf(table.hash, table.bucketNum, old(table.Map()), op)
    ensures table.Map() == MapAfter(table.hash, table.bucketNum, old(table.Map()), op)
    ensures |table.buckets| <= |old(table.buckets)| + 1
    ensures forall b :: b in table.buckets ==> b in old(table.buckets) || fresh(b)
    ensures Spare(table.bucketNum, |table.buckets|, table.shape.owner, rest)
  {
    hide *;
    table.Opened();
    AnswerIs(table.hash, table.bucketNum, table.Map(), op);
    ghost var n, buckets, shape := table.bucketNum, |table.buckets|, table.shape;
    rest := pool;
    match op
    case Insert(_, _, _, _) =>
      answer, rest := ApplyInsert(table, op, pool);
    case Delete(key) =>
      var ok, released := table.Delete(key);
      SlotGained(n, buckets, shape, table.shape, pool, released);
      rest := if table.bucketNum <= released then pool + [released] else pool;
      answer := Done(ok);
    case Search(key) =>
      var found, value := table.Search(key);
      answer := if found then Found(value) else Missing;
  }

  method ApplyInsert(table: MurmurHashTable, op: Op, pool: seq<nat>) returns (answer: Answer, rest: seq<nat>)
    requires table.Valid() && op.Insert? && Fits(op) && |table.buckets| < MAX_LINK
    requires Spare(table.bucketNum, |table.buckets|, table.shape.owner, pool)
    modifies table, table.buckets
    ensures table.Valid() && table.bucketNum == old(table.bucketNum) && 0 < table.bucketNum
    ensures answer == AnswerOf(table.hash, table.bucketNum, old(table.Map()), op)
    ensures table.Map() == MapAfter(table.hash, table.bucketNum, old(table.Map()), op)
    ensures |table.buckets| <= |old(table.buckets)| + 1
    ensures forall b :: b in table.buckets ==> b in old(table.buckets) || fresh(b)
    ensures Spare(table.bucketNum, |table.buckets|, table.shape.owner, rest)
  {
    hide *;
    table.Opened();
    AnswerIs(table.hash, table.bucketNum, table.Map(), op);
    ghost var n, buckets, shape := table.bucketNum, |table.buckets|, table.shape;
    var reuses := op.choice < |pool|;
    var pick := |table.buckets|;
    if reuses {
      pick := pool[op.choice];
      SpareIs(n, buckets, shape.owner, pool, op.choice);
      table.SpareIsAvailable(pick);
    } else {
      table.FreshIsAvailable();
    }
    var ok, taken := table.Insert(op.key, op.value, op.payloadEmpty, pick);
    answer, rest := Done(ok), pool;
    if reuses {
      SlotSpent(n, buckets, |table.buckets|, shape, table.shape, pool, op.choice, taken);
      rest := if taken then pool[..op.choice] + pool[op.choice + 1..] else pool;
    } else {
      FreshSpent(n, buckets, |table.buckets|, shape, table.shape, pool, taken);
    }
  }

  lemma AnswerIs(hash: Hash, n: nat, m: map<Ident, int>, op: Op)
    requires 0 < n && Fits(op)
    ensures op.Insert? ==>
      && (op.key.Key? ==> |op.key.bytes| <= 255)
      && AnswerOf(hash, n, m, op) == Done(op.payloadEmpty && op.key.Usable())
      && MapAfter(hash, n, m, op) ==
           if op.payloadEmpty && op.key.Usable() then m[IdentOf(hash, n, op.key.bytes) := Wrap48(op.value)] else m
    ensures op.Delete? ==>
      && AnswerOf(hash, n, m, op) == Done(true)
      && MapAfter(hash, n, m, op) == if op.key.Usable() then m - {IdentOf(hash, n, op.key.bytes)} else m
    ensures op.Search? ==>
      && AnswerOf(hash, n, m, op) == (
           if op.key.Usable() && IdentOf(hash, n, op.key.bytes) in m then Found(m[IdentOf(hash, n, op.key.bytes)])
           else Missing)
      && MapAfter(hash, n, m, op) == m
  {
  }

  // ---------- a run that loses a key ----------

  // Inserting a key whose primary slot no other key has, into a table without overflow buckets.
  method InsertAlone(table: MurmurHashTable, key: seq<byte>, v: int)
    requires table.Valid() && table.shape.owner == map[] && |table.buckets| < MAX_LINK && 1 <= |key| <= 255
    requires 0 < table.bucketNum
    requires forall id :: id in table.Map() ==> id.home != IdentOf(table.hash, table.bucketNum, key).home
    modifies table, table.buckets
    ensures table.Valid() && table.bucketNum == old(table.bucketNum) && table.shape.owner == map[]
    ensures table.Map() == old(table.Map())[IdentOf(table.hash, table.bucketNum, key) := Wrap48(v)]
    ensures table.buckets == old(table.buckets)
  {
    hide *;
    table.Opened();
    KeyUsable(Key(key));
    ghost var id := IdentOf(table.hash, table.bucketNum, key);
    HomeIsPrimary(table.hash, table.bucketNum, key);
    table.FreshIsAvailable();
    ghost var s, mem, m, pick := table.shape, table.mem, table.Map(), |table.buckets|;
    var _, taken := table.Insert(Key(key), v, true, |table.buckets|);
    StaysInPrimaries(table.bucketNum, mem, s, m, id, table.shape, taken, pick);
  }

  // Two primary slots. A key of home 1, then one of home 0 that is deleted again: slot 0 goes back to the pool. When
  // the pool hands it out for a second key of home 1, the table's memory no longer serves the map.
  method ReleasedSlotRun(hash: Hash, p: seq<byte>, a: seq<byte>, q: seq<byte>, v: int, w: int)
      returns (table: MurmurHashTable, released: int)
    requires 1 <= |p| <= 255 && 1 <= |a| <= 255 && 1 <= |q| <= 255
    requires HomeOfKey(hash, 2, p) == 1 && HomeOfKey(hash, 2, a) == 0 && HomeOfKey(hash, 2, q) == 1
    requires MarkOf(hash, p) != MarkOf(hash, q)
    ensures fresh(table) && table.Valid() && table.bucketNum == 2 && table.hash == hash && released == 0
    ensures table.Map() == map[IdentOf(hash, 2, p) := Wrap48(v)]
    ensures MarkOf(hash, q).Proper() && 2 <= |table.mem|
    ensures !Serves(Inserted(table.mem, 1, 1, released, MarkOf(hash, q), w), 2, table.Map()[IdentOf(hash, 2, q) := w])
  {
    hide *;
    StorableMark(hash, 2, p);
    StorableMark(hash, 2, a);
    StorableMark(hash, 2, q);
    TwoSlots();
    table := new MurmurHashTable.Init(hash, 2);
    InsertAlone(table, p, v);
    InsertAlone(table, a, v);
    table.Opened();
    KeyUsable(Key(a));
    ghost var s := table.shape;
    AllInPrimaries(2, table.mem, s, table.Map());
    var _, slot := table.Delete(Key(a));
    released := slot;
    NothingToRelease(2, s, table.shape, released);
    table.Opened();
    assert table.Map() == map[IdentOf(hash, 2, p) := Wrap48(v)];
    AllInPrimaries(2, table.mem, table.shape, table.Map());
    LonePlace(2, table.shape, IdentOf(hash, 2, p));
    ServedIffBehindPrimaries(2, table.mem, table.shape, 1, 0, MarkOf(hash, q), w);
  }

  lemma HomeIsPrimary(hash: Hash, n: nat, key: seq<byte>)
    requires 0 < n && PowerOfTwo(n)
    ensures IdentOf(hash, n, key).home < n
  {
    HomeIsRemainder(hash, n, key);
  }

  lemma TwoSlots()
    ensures PowerOfTwo(2) && 3 < MAX_LINK
  {
    assert Pow2(1) == 2;
  }

  // A table without overflow buckets keeps every key in its primary slot.
  lemma AllInPrimaries(n: nat, mem: seq<Cell>, s: Shape, m: map<Ident, int>)
    requires Inv(n, mem, s) && s.owner == map[]
    requires (forall id :: id in s.place ==> s.place[id] < |mem|) && m == Contents(mem, s.place)
    ensures |s.chains| == n <= |mem| && forall h: nat :: h < n ==> s.chains[h] == []
    ensures forall id :: id in m <==> id in s.place
    ensures forall id :: id in m ==> id.home < n && mem[id.home].occupied && LonePrimary(n, s, id)
    ensures forall k: nat :: k < n && mem[k].occupied ==> exists id :: id in m && id.home == k
  {
  }

  lemma KeyUsable(key: Key)
    requires key.Key? && key.bytes != []
    ensures key.Usable()
  {
  }

  lemma StaysInPrimaries(n: nat, mem: seq<Cell>, s: Shape, m: map<Ident, int>, id: Ident,
      after: Shape, taken: bool, pick: nat)
    requires Inv(n, mem, s) && s.owner == map[] && id.home < n
    requires (forall other :: other in s.place ==> s.place[other] < |mem|) && m == Contents(mem, s.place)
    requires forall other :: other in m ==> other.home != id.home
    requires SlotTaken(s, after, taken, pick) && (taken ==> HomeIsFull(mem, id))
    ensures !taken && after.owner == map[]
  {
    AllInPrimaries(n, mem, s, m);
  }

  lemma NothingToRelease(n: nat, before: Shape, after: Shape, released: int)
    requires SlotReleased(n, before, after, released) && before.owner == map[]
    ensures after.owner == map[]
  {
  }

  lemma LonePlace(n: nat, s: Shape, id: Ident)
    requires LonePrimary(n, s, id)
    ensures id.home < |s.chains| && s.chains[id.home] == [] && At(s.chains[id.home], id.home, 0) == id.home
  {
  }
}
