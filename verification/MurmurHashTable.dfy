// The chained hash index: an array of primary buckets, overflow buckets from the pool, tombstones on deletion.
module MurmurHashTables {
  import opened Bits
  import opened Bytes
  import opened HashBuckets
  import opened HashChains
  import opened HashSteps
  import opened HashReuse
  import opened HashOrder

  // MurmurHash2 as an arbitrary function of key bytes and seed.
  type Hash = (seq<byte>, nat) -> nat

  const RAW_KEY_SEED: nat := 0x89741511
  const CHECK_KEY_SEED: nat := 0x91BA1109
  const CHECK_PAYLOAD_SEED: nat := 0x27EF9050
  const MAX_LINK: nat := 0x2000_0000

  datatype Key = NoKey | Key(bytes: seq<byte>) {
    predicate Usable() { Key? && bytes != [] }
  }

  function Word(x: nat): nat { x % 0x1_0000_0000 }

  function HomeOfKey(hash: Hash, n: nat, key: seq<byte>): nat
    requires 0 < n
  {
    And(Word(hash(key, RAW_KEY_SEED)), n - 1)
  }

  function MarkOf(hash: Hash, key: seq<byte>): Print {
    if |key| <= PAYLOAD_SIZE then Short(key)
    else Long(|key|, Word(hash(key, CHECK_KEY_SEED)), LowBytes(Word(hash(key, CHECK_PAYLOAD_SEED))))
  }

  function IdentOf(hash: Hash, n: nat, key: seq<byte>): Ident
    requires 0 < n
  {
    Ident(HomeOfKey(hash, n, key), MarkOf(hash, key))
  }

  ghost predicate PowerOfTwo(n: nat) {
    exists k: nat :: n == Pow2(k)
  }

  // The slot of a key is its 32-bit hash modulo the number of primary buckets, so it is always one of them.
  lemma HomeIsRemainder(hash: Hash, n: nat, key: seq<byte>)
    requires 0 < n && PowerOfTwo(n)
    ensures HomeOfKey(hash, n, key) == hash(key, 0x89741511) % 0x1_0000_0000 % n < n
  {
    var k: nat :| n == Pow2(k);
    MaskIsRemainder(Word(hash(key, RAW_KEY_SEED)), k);
  }

  // Two bytes of payload tell two hashes apart exactly when they differ in the low sixteen bits.
  lemma LowBytesAgreeIff(x: nat, y: nat)
    ensures LowBytes(x) == LowBytes(y) <==> x % 0x1_0000 == y % 0x1_0000
  {
    hide LowBytes;
    LowBytesAre(x);
    LowBytesAre(y);
    TwoDigits(x);
    TwoDigits(y);
  }

  lemma LowBytesAre(x: nat)
    ensures LowBytes(x)[0] == x % 256 && LowBytes(x)[1] == x / 256 % 256
    ensures LowBytes(x) == [LowBytes(x)[0], LowBytes(x)[1]]
  {
    assert Encoded(x, 2) == [x % 256] + Encoded(x / 256, 1);
    assert Encoded(x / 256, 1) == [x / 256 % 256] + Encoded(x / 256 / 256, 0);
  }

  lemma TwoDigits(x: nat)
    ensures x % 0x1_0000 == x % 256 + 256 * (x / 256 % 256)
  {
    var d, e, q := x % 256, x / 256 % 256, x / 256 / 256;
    assert x == 0x1_0000 * q + (d + 256 * e);
    RemainderUnique(x, 0x1_0000, q, d + 256 * e);
  }

  // What the table tells apart within one slot. Keys of one or two bytes: different keys. Longer keys: different
  // lengths, different 32-bit check hashes, or payload hashes that differ in their low sixteen bits. A key of either
  // kind is never taken for one of the other.
  lemma MarksAgreeIff(hash: Hash, a: seq<byte>, b: seq<byte>)
    ensures |a| <= 2 && |b| <= 2 ==> (MarkOf(hash, a) == MarkOf(hash, b) <==> a == b)
    ensures |a| > 2 && |b| > 2 ==> (MarkOf(hash, a) == MarkOf(hash, b) <==>
      && |a| == |b|
      && hash(a, 0x91BA1109) % 0x1_0000_0000 == hash(b, 0x91BA1109) % 0x1_0000_0000
      && hash(a, 0x27EF9050) % 0x1_0000 == hash(b, 0x27EF9050) % 0x1_0000)
    ensures |a| <= 2 < |b| ==> MarkOf(hash, a) != MarkOf(hash, b) && MarkOf(hash, b) != MarkOf(hash, a)
  {
    hide LowBytes;
    var x, y := hash(a, 0x27EF9050), hash(b, 0x27EF9050);
    LowBytesAgreeIff(Word(x), Word(y));
    WordLow(x);
    WordLow(y);
  }

  lemma WordLow(x: nat)
    ensures Word(x) % 0x1_0000 == x % 0x1_0000
  {
    var q := x / 0x1_0000_0000;
    assert x == Word(x) + 0x1_0000 * (0x1_0000 * q);
  }

  // So two keys are one key to the table exactly when their slots and what is told apart within a slot agree.
  lemma KeysCollideIff(hash: Hash, n: nat, a: seq<byte>, b: seq<byte>)
    requires 0 < n && PowerOfTwo(n) && 2 < |a| && 2 < |b|
    ensures IdentOf(hash, n, a) == IdentOf(hash, n, b) <==>
      && |a| == |b|
      && hash(a, 0x89741511) % 0x1_0000_0000 % n == hash(b, 0x89741511) % 0x1_0000_0000 % n
      && hash(a, 0x91BA1109) % 0x1_0000_0000 == hash(b, 0x91BA1109) % 0x1_0000_0000
      && hash(a, 0x27EF9050) % 0x1_0000 == hash(b, 0x27EF9050) % 0x1_0000
  {
    hide HomeOfKey, MarkOf, PowerOfTwo;
    HomeIsRemainder(hash, n, a);
    HomeIsRemainder(hash, n, b);
    MarksAgreeIff(hash, a, b);
  }

  // The number of primary buckets for a request: the least power of two from max(2, request) up, as far as 2^31.
  method SetBucketNum(request: nat) returns (bucketNum: nat)
    ensures PowerOfTwo(bucketNum) && 2 <= bucketNum <= 0x8000_0000
    ensures request <= 0x8000_0000 <==> request <= bucketNum
    ensures bucketNum == 2 || bucketNum / 2 < request
  {
    var wanted := if request > 2 then request else 2;
    bucketNum := 1;
    var i := 1;
    assert Pow2(8) == 256;
    assert Pow2(16) == 0x1_0000;
    assert Pow2(24) == 0x100_0000;
    assert Pow2(31) == 0x8000_0000;
    while i < 32
      invariant 1 <= i <= 32
      invariant bucketNum == Pow2(i - 1) && bucketNum < wanted
    {
      bucketNum := Pow2(i);
      if bucketNum >= wanted {
        if i < 31 {
          Pow2Monotone(i, 31);
        }
        return;
      }
      i := i + 1;
    }
    assert bucketNum == Pow2(31);
  }

  class MurmurHashTable {
    const hash: Hash
    var bucketNum: nat
    var usedSize: nat
    var buckets: seq<HashBucket>
    ghost var mem: seq<Cell>
    ghost var shape: Shape

    ghost predicate Mirrored()
      reads this`mem, this`buckets, buckets
    {
      && |mem| == |buckets|
      && (forall i: nat :: i < |buckets| ==> buckets[i].Get() == mem[i])
      && (forall i: nat, j: nat :: i < j < |buckets| ==> buckets[i] != buckets[j])
    }

    ghost predicate Valid()
      reads this, buckets
    {
      && Mirrored()
      && PowerOfTwo(bucketNum)
      && Inv(bucketNum, mem, shape)
      && usedSize == |shape.place|
    }

    // The map from keys, as the table tells them apart, to values.
    ghost function Map(): map<Ident, int>
      requires Valid()
      reads this, buckets
    {
      Contents(mem, shape.place)
    }

    // Slots the pool may hand out: the next fresh one, or one that no chain uses and that is no primary bucket.
    ghost predicate Available(pick: nat)
      reads this
    {
      bucketNum <= pick <= |buckets| && pick < MAX_LINK && pick !in shape.owner
    }

    // What the proofs below need of a valid table while its definition stays hidden.
    lemma Opened()
      requires Valid()
      ensures Mirrored() && Inv(bucketNum, mem, shape) && usedSize == |shape.place|
      ensures 0 < |shape.chains| == bucketNum <= |mem| == |buckets| && PowerOfTwo(bucketNum)
      ensures forall id :: id in shape.place ==> shape.place[id] < |mem|
      ensures Map() == Contents(mem, shape.place)
    {
    }

    lemma Closed()
      requires Mirrored() && Inv(bucketNum, mem, shape) && usedSize == |shape.place| && PowerOfTwo(bucketNum)
      ensures Valid()
      ensures forall id :: id in shape.place ==> shape.place[id] < |mem|
      ensures Map() == Contents(mem, shape.place)
    {
    }

    lemma MirrorAt(i: nat)
      requires Mirrored() && i < |buckets|
      ensures i < |mem| && buckets[i].Get() == mem[i]
      ensures buckets[i].next == mem[i].next && buckets[i].occupied == mem[i].occupied
      ensures buckets[i].size == mem[i].size && buckets[i].code == mem[i].code && buckets[i].value == mem[i].value
      ensures buckets[i].hashed == mem[i].hashed && buckets[i].payload == mem[i].payload
    {
    }

    // After a write to bucket i alone, updating the view at i restores the correspondence.
    twostate lemma Rewritten(i: nat)
      requires old(Mirrored()) && buckets == old(buckets) && i < |buckets|
      requires mem == old(mem)[i := buckets[i].Get()]
      requires forall b :: b in buckets && b != buckets[i] ==> unchanged(b)
      ensures Mirrored()
    {
      forall j: nat | j < |buckets|
        ensures buckets[j].Get() == mem[j]
      {
        assert j == i || (buckets[j] in buckets && buckets[j] != buckets[i]);
      }
    }

    twostate lemma Appended(new b: HashBucket)
      requires old(Mirrored()) && !old(allocated(b)) && b.Get() == ZERO
      requires buckets == old(buckets) + [b] && mem == old(mem) + [ZERO]
      requires forall c :: c in old(buckets) ==> unchanged(c)
      ensures Mirrored()
    {
      forall j: nat | j < |buckets|
        ensures buckets[j].Get() == mem[j]
      {
        assert j == |old(buckets)| || buckets[j] in old(buckets);
      }
    }

    constructor Init(hash: Hash, bucketNum: nat)
      requires PowerOfTwo(bucketNum)
      ensures Valid() && Map() == map[] && this.hash == hash && this.bucketNum == bucketNum
      ensures |buckets| == bucketNum && shape.owner == map[] && fresh(buckets)
    {
      this.hash, this.bucketNum, usedSize := hash, bucketNum, 0;
      buckets, mem := [], [];
      shape := Shape(seq(bucketNum, _ => []), map[], map[]);
      new;
      for i := 0 to bucketNum
        invariant |buckets| == i && mem == seq(i, _ => ZERO) && Mirrored() && fresh(buckets)
        invariant this.bucketNum == bucketNum && usedSize == 0
        invariant shape == Shape(seq(bucketNum, _ => []), map[], map[])
      {
        var b := new HashBucket();
        buckets, mem := buckets + [b], mem + [ZERO];
      }
      EmptyTable(bucketNum);
    }

    method GetRawBucketByKey(key: seq<byte>) returns (index: nat)
      requires 0 < bucketNum && PowerOfTwo(bucketNum)
      ensures index == HomeOfKey(hash, bucketNum, key) < bucketNum
    {
      HomeIsRemainder(hash, bucketNum, key);
      index := And(Word(hash(key, RAW_KEY_SEED)), bucketNum - 1);
    }

    // Both lookups return the bucket of a stored key, or -1; then `last` is the end of the chain walked.
    method FindBucketLePayloadSize(key: seq<byte>) returns (bucket: int, prev: int, last: nat)
      requires Valid() && 1 <= |key| <= PAYLOAD_SIZE
      ensures var id := IdentOf(hash, bucketNum, key);
        && bucket == (if id in shape.place then shape.place[id] else -1)
        && (bucket == -1 ==> EndsChain(shape, id.home, last))
      ensures 0 <= bucket < bucketNum ==> prev == -1
      ensures bucketNum <= bucket ==> 0 <= prev < |mem| && mem[prev].next == bucket
    {
      hide *;
      Opened();
      var first := GetRawBucketByKey(key);
      ghost var p := Short(key);
      ShortMark(hash, bucketNum, key);
      PassFirst(bucketNum, mem, shape, first, p);
      MirrorAt(first);
      last := first;
      if buckets[first].occupied {
        var same := buckets[first].CheckKeyInPayload(key);
        if same {
          return first, -1, first;
        }
      }
      ghost var i := 0;
      while bucketNum <= buckets[last].next
        invariant last < |mem| && Passed(mem, shape, first, i, p, last) && buckets[last].next == mem[last].next
        decreases |shape.chains[first]| - i
      {
        PassNext(bucketNum, mem, shape, first, i, p, last);
        var pre := last;
        last := buckets[last].next;
        i := i + 1;
        MirrorAt(last);
        if buckets[last].occupied {
          var same := buckets[last].CheckKeyInPayload(key);
          if same {
            return last, pre, last;
          }
        }
      }
      PassEnd(bucketNum, mem, shape, first, i, p, last);
      return -1, -1, last;
    }

    method FindBucketGtPayloadSize(key: seq<byte>) returns (bucket: int, prev: int, last: nat)
      requires Valid() && PAYLOAD_SIZE < |key|
      ensures var id := IdentOf(hash, bucketNum, key);
        && bucket == (if id in shape.place then shape.place[id] else -1)
        && (bucket == -1 ==> EndsChain(shape, id.home, last))
      ensures 0 <= bucket < bucketNum ==> prev == -1
      ensures bucketNum <= bucket ==> 0 <= prev < |mem| && mem[prev].next == bucket
    {
      hide *;
      Opened();
      var first := GetRawBucketByKey(key);
      var checkCode := Word(hash(key, CHECK_KEY_SEED));
      var payloadCode := Word(hash(key, CHECK_PAYLOAD_SEED));
      ghost var p := Long(|key|, checkCode, LowBytes(payloadCode));
      LongMark(hash, bucketNum, key);
      PassFirst(bucketNum, mem, shape, first, p);
      MirrorAt(first);
      last := first;
      if buckets[first].occupied {
        LongMatch(mem[first], |key|, checkCode, LowBytes(payloadCode));
        if buckets[first].size == |key| && buckets[first].code == checkCode {
          var same := buckets[first].CheckHashCodeInPayload(payloadCode);
          if same {
            return first, -1, first;
          }
        }
      }
      ghost var i := 0;
      while bucketNum <= buckets[last].next
        invariant last < |mem| && Passed(mem, shape, first, i, p, last) && buckets[last].next == mem[last].next
        decreases |shape.chains[first]| - i
      {
        PassNext(bucketNum, mem, shape, first, i, p, last);
        var pre := last;
        last := buckets[last].next;
        i := i + 1;
        MirrorAt(last);
        LongMatch(mem[last], |key|, checkCode, LowBytes(payloadCode));
        if buckets[last].occupied && buckets[last].size == |key| && buckets[last].code == checkCode {
          var same := buckets[last].CheckHashCodeInPayload(payloadCode);
          if same {
            return last, pre, last;
          }
        }
      }
      PassEnd(bucketNum, mem, shape, first, i, p, last);
      return -1, -1, last;
    }

    method FindBucket(key: seq<byte>) returns (bucket: int, prev: int, last: nat)
      requires Valid() && key != []
      ensures var id := IdentOf(hash, bucketNum, key);
        && bucket == (if id in shape.place then shape.place[id] else -1)
        && (bucket == -1 ==> EndsChain(shape, id.home, last))
      ensures 0 <= bucket < bucketNum ==> prev == -1
      ensures bucketNum <= bucket ==> 0 <= prev < |mem| && mem[prev].next == bucket
    {
      if |key| <= PAYLOAD_SIZE {
        bucket, prev, last := FindBucketLePayloadSize(key);
      } else {
        bucket, prev, last := FindBucketGtPayloadSize(key);
      }
    }

    // Writing the key fields of a bucket, in the order of the two variants.
    method StampBucket(i: nat, key: seq<byte>)
      requires Mirrored() && i < |buckets| && key != []
      modifies this`mem, buckets[i]
      ensures Mirrored() && mem == old(mem)[i := Stamped(old(mem)[i], MarkOf(hash, key))]
    {
      hide *;
      MirrorAt(i);
      StampOf(hash, mem[i], key);
      if |key| <= PAYLOAD_SIZE {
        buckets[i].SetKeyInPayload(key);
      } else {
        buckets[i].SetKeySize(|key|);
        buckets[i].SetHashCode(Word(hash(key, CHECK_KEY_SEED)));
        buckets[i].SetHashCodeInPayload(Word(hash(key, CHECK_PAYLOAD_SEED)));
      }
      mem := mem[i := buckets[i].Get()];
      Rewritten(i);
    }

    method LinkBucket(i: nat, next: nat)
      requires Mirrored() && i < |buckets| && next < MAX_LINK
      modifies this`mem, buckets[i]
      ensures Mirrored() && i < |old(mem)|
      ensures mem == old(mem)[i := old(mem)[i].(next := next)]
    {
      MirrorAt(i);
      buckets[i].SetNextBucket(next);
      mem := mem[i := buckets[i].Get()];
      Rewritten(i);
    }

    method OccupyBucket(i: nat, value: int)
      requires Mirrored() && i < |buckets|
      modifies this`mem, buckets[i]
      ensures Mirrored() && i < |old(mem)|
      ensures mem == old(mem)[i := old(mem)[i].(value := Wrap48(value), occupied := true)]
    {
      MirrorAt(i);
      buckets[i].SetValue(value);
      buckets[i].SetBucketOccupied(true);
      mem := mem[i := buckets[i].Get()];
      Rewritten(i);
    }

    // A bucket waiting for the value of a key: linked, stamped with the key, not yet occupied.
    ghost predicate Ready(id: Ident, bucket: int)
      reads this
    {
      && id !in shape.place
      && 0 <= bucket < |mem| && InChain(bucketNum, shape.owner, bucket)
      && !mem[bucket].occupied && Canonical(mem[bucket])
      && Ident(HomeOf(bucketNum, shape.owner, bucket), PrintOf(mem[bucket])) == id
    }

    // The pool's answer to a request for one bucket.
    method AllocBucket(pick: nat)
      requires Valid() && Available(pick)
      modifies this`buckets, this`mem
      ensures Valid() && Map() == old(Map()) && pick < |buckets|
      ensures mem == if pick == |old(buckets)| then old(mem) + [ZERO] else old(mem)
      ensures buckets == old(buckets) || (
        && |buckets| == |old(buckets)| + 1 && buckets[..|old(buckets)|] == old(buckets)
        && fresh(buckets[|old(buckets)|]))
    {
      hide *;
      Opened();
      AvailableSlot(pick);
      if pick == |buckets| {
        var b := new HashBucket();
        Grow(bucketNum, mem, shape);
        GrownContents(bucketNum, mem, shape);
        buckets, mem := buckets + [b], mem + [ZERO];
        Appended(b);
        Closed();
      }
    }

    // What a lookup with creation does for a key that is not stored. `pick` is the slot the pool hands out if a
    // new bucket is needed.
    method CreateBucket(key: seq<byte>, last: nat, pick: nat) returns (bucket: int, prev: int, taken: bool)
      requires Valid() && key != [] && |key| <= 255 && Available(pick)
      requires IdentOf(hash, bucketNum, key) !in shape.place
      requires EndsChain(shape, IdentOf(hash, bucketNum, key).home, last)
      modifies this, buckets
      ensures Valid() && bucketNum == old(bucketNum) && usedSize == old(usedSize)
      ensures Map() == old(Map()) && Ready(IdentOf(hash, bucketNum, key), bucket)
      ensures shape.place == old(shape.place) && |old(buckets)| <= |buckets| <= |old(buckets)| + 1
      ensures forall b :: b in buckets ==> b in old(buckets) || fresh(b)
      ensures taken <==> HomeIsFull(old(mem), IdentOf(hash, bucketNum, key))
      ensures SlotTaken(old(shape), shape, taken, pick) && (!taken ==> buckets == old(buckets))
    {
      hide *;
      Opened();
      AvailableSlot(pick);
      var first := GetRawBucketByKey(key);
      ghost var p := MarkOf(hash, key);
      StorableMark(hash, bucketNum, key);
      MirrorAt(first);
      taken := buckets[first].occupied;
      HomeFullIs(mem, IdentOf(hash, bucketNum, key), first);
      if !buckets[first].occupied {
        NoSlotTaken(shape, pick);
        StampPrimary(bucketNum, mem, shape, first, p);
        StampBucket(first, key);
        bucket, prev := first, -1;
      } else {
        AllocBucket(pick);
        Opened();
        ChainBucket(key, first, last, pick);
        bucket, prev := pick, last;
      }
      Closed();
      IsReady(first, p, bucket);
    }

    // Stamps the pool's bucket with the key and links it behind the last one of its chain.
    method ChainBucket(key: seq<byte>, first: nat, last: nat, pick: nat)
      requires Valid() && 1 <= |key| <= 255 && first == HomeOfKey(hash, bucketNum, key) < bucketNum
      requires bucketNum <= pick < |buckets| && pick < MAX_LINK && pick !in shape.owner && EndsChain(shape, first, last)
      modifies this`mem, this`shape, buckets
      ensures Mirrored() && Inv(bucketNum, mem, shape) && shape.place == old(shape.place) && |mem| == |buckets|
      ensures |shape.chains| == bucketNum
      ensures InChain(bucketNum, shape.owner, pick) && HomeOf(bucketNum, shape.owner, pick) == first
      ensures pick < |mem| && !mem[pick].occupied && Canonical(mem[pick]) && PrintOf(mem[pick]) == MarkOf(hash, key)
      ensures forall id :: id in shape.place ==> shape.place[id] < |mem|
      ensures forall id :: id in shape.place ==> old(shape.place)[id] < |old(mem)|
      ensures Contents(mem, shape.place) == Contents(old(mem), old(shape.place))
      ensures SlotTaken(old(shape), shape, true, pick)
    {
      hide *;
      Opened();
      ghost var p := MarkOf(hash, key);
      StorableMark(hash, bucketNum, key);
      LinkWrites(bucketNum, mem, shape, first, last, pick, p);
      StampBucket(pick, key);
      LinkBucket(last, pick);
      LinkBucket(pick, first);
      OneSlotTaken(shape, first, pick);
      shape := Extended(shape, first, pick);
      Bounds(bucketNum, mem, shape);
    }

    // The slot behind all others is always available: what a pool with its free list disabled hands out.
    lemma FreshIsAvailable()
      requires Valid() && |buckets| < MAX_LINK
      ensures Available(|buckets|)
    {
    }

    lemma SpareIsAvailable(pick: nat)
      requires Valid() && bucketNum <= pick < |buckets| < MAX_LINK && pick !in shape.owner
      ensures Available(pick)
    {
    }

    lemma AvailableSlot(pick: nat)
      requires Available(pick)
      ensures bucketNum <= pick <= |buckets| && pick < MAX_LINK && bucketNum < MAX_LINK && pick !in shape.owner
    {
    }

    lemma IsReady(h: nat, p: Print, bucket: int)
      requires Ident(h, p) !in shape.place
      requires 0 <= bucket < |mem| && InChain(bucketNum, shape.owner, bucket)
      requires HomeOf(bucketNum, shape.owner, bucket) == h
      requires !mem[bucket].occupied && Canonical(mem[bucket]) && PrintOf(mem[bucket]) == p
      ensures Ready(Ident(h, p), bucket)
    {
    }

    method Search(key: Key) returns (found: bool, value: int)
      requires Valid()
      ensures found <==> key.Usable() && IdentOf(hash, bucketNum, key.bytes) in Map()
      ensures value == if found then Map()[IdentOf(hash, bucketNum, key.bytes)] else -1
    {
      if key == NoKey || key.bytes == [] {
        return false, -1;
      }
      var bucket, _, _ := FindBucket(key.bytes);
      if bucket == -1 {
        return false, -1;
      }
      return true, buckets[bucket].value;
    }

    // `taken` tells whether the pool was asked for a bucket: exactly for a new key whose primary slot is occupied.
    method Insert(key: Key, value: int, payloadEmpty: bool, pick: nat) returns (ok: bool, taken: bool)
      requires Valid() && Available(pick) && (key.Key? ==> |key.bytes| <= 255)
      modifies this, buckets
      ensures Valid() && bucketNum == old(bucketNum)
      ensures ok <==> payloadEmpty && key.Usable()
      ensures Map() == if ok then old(Map())[IdentOf(hash, bucketNum, key.bytes) := Wrap48(value)] else old(Map())
      ensures |old(buckets)| <= |buckets| <= |old(buckets)| + 1
      ensures forall b :: b in buckets ==> b in old(buckets) || fresh(b)
      ensures taken <==> ok && IdentOf(hash, bucketNum, key.bytes) !in old(Map())
                            && HomeIsFull(old(mem), IdentOf(hash, bucketNum, key.bytes))
      ensures SlotTaken(old(shape), shape, taken, pick) && (!taken ==> buckets == old(buckets))
    {
      if !payloadEmpty || key == NoKey || key.bytes == [] {
        return false, false;
      }
      taken := InsertKey(key.bytes, value, pick);
      return true, taken;
    }

    method InsertKey(key: seq<byte>, value: int, pick: nat) returns (taken: bool)
      requires Valid() && Available(pick) && key != [] && |key| <= 255
      modifies this, buckets
      ensures Valid() && bucketNum == old(bucketNum)
      ensures Map() == old(Map())[IdentOf(hash, bucketNum, key) := Wrap48(value)]
      ensures |old(buckets)| <= |buckets| <= |old(buckets)| + 1
      ensures forall b :: b in buckets ==> b in old(buckets) || fresh(b)
      ensures taken <==>
        IdentOf(hash, bucketNum, key) !in old(Map()) && HomeIsFull(old(mem), IdentOf(hash, bucketNum, key))
      ensures SlotTaken(old(shape), shape, taken, pick) && (!taken ==> buckets == old(buckets))
    {
      hide *;
      Opened();
      ghost var id := IdentOf(hash, bucketNum, key);
      ghost var place := shape.place;
      taken := false;
      NoSlotTaken(shape, pick);
      MapKeys(mem, place);
      var bucket, prev, last := FindBucket(key);
      if bucket == -1 {
        bucket, prev, taken := CreateBucket(key, last, pick);
        Opened();
        ReadyMeans(id, bucket);
        Fill(bucketNum, mem, shape, bucket, Wrap48(value));
        place := place[id := bucket];
      } else {
        Overwrite(bucketNum, mem, shape, id, Wrap48(value));
      }
      MirrorAt(bucket);
      assert buckets[bucket] in buckets;
      if !buckets[bucket].occupied {
        usedSize := usedSize + 1;
      }
      OccupyBucket(bucket, value);
      SlotsStay(old(shape), shape, taken, pick, place);
      shape := shape.(place := place);
      Closed();
    }

    lemma ReadyMeans(id: Ident, bucket: int)
      requires Ready(id, bucket)
      ensures id !in shape.place
      ensures 0 <= bucket < |mem| && InChain(bucketNum, shape.owner, bucket)
      ensures !mem[bucket].occupied && Canonical(mem[bucket])
      ensures Ident(HomeOf(bucketNum, shape.owner, bucket), PrintOf(mem[bucket])) == id
    {
    }

    // Deleting always succeeds. `released` is the slot given back to the pool, or -1: a primary slot without
    // successors, or the second bucket of a chain after it moved into the primary slot.
    method Delete(key: Key) returns (ok: bool, released: int)
      requires Valid()
      modifies this, buckets
      ensures Valid() && ok && bucketNum == old(bucketNum) && buckets == old(buckets)
      ensures Map() == if key.Usable() then old(Map()) - {IdentOf(hash, bucketNum, key.bytes)} else old(Map())
      ensures released == -1 || 0 <= released < |buckets|
      ensures bucketNum <= released ==> released !in shape.owner
      ensures 0 <= released < bucketNum <==>
        key.Usable() && LonePrimary(bucketNum, old(shape), IdentOf(hash, bucketNum, key.bytes))
      ensures 0 <= released < bucketNum ==> released == IdentOf(hash, bucketNum, key.bytes).home
      ensures SlotReleased(bucketNum, old(shape), shape, released)
    {
      NoSlotReleased(bucketNum, shape);
      if key == NoKey || key.bytes == [] {
        return true, -1;
      }
      released := DeleteKey(key.bytes);
      return true, released;
    }

    method DeleteKey(key: seq<byte>) returns (released: int)
      requires Valid() && key != []
      modifies this, buckets
      ensures Valid() && bucketNum == old(bucketNum) && buckets == old(buckets)
      ensures Map() == old(Map()) - {IdentOf(hash, bucketNum, key)}
      ensures released == -1 || 0 <= released < |buckets|
      ensures bucketNum <= released ==> released !in shape.owner
      ensures 0 <= released < bucketNum <==> LonePrimary(bucketNum, old(shape), IdentOf(hash, bucketNum, key))
      ensures 0 <= released < bucketNum ==> released == IdentOf(hash, bucketNum, key).home
      ensures SlotReleased(bucketNum, old(shape), shape, released)
    {
      hide *;
      Opened();
      ghost var id := IdentOf(hash, bucketNum, key);
      ghost var before := shape;
      MapWithout(mem, shape.place, id);
      var bucket, prev, last := FindBucket(key);
      NoSlotReleased(bucketNum, shape);
      if bucket == -1 {
        NotLone(bucketNum, shape, id);
        return -1;
      }
      PlaceHome(bucketNum, mem, shape, id);
      VacateBucket(id, bucket);
      usedSize := usedSize - 1;
      assert buckets[bucket] in buckets;
      Closed();
      if 0 <= bucket < bucketNum {
        LoneIs(bucketNum, before, id);
        ghost var between := shape;
        released := ReleasePrimary(bucket);
        SameOwners(bucketNum, before, between, shape, released);
      } else {
        NotLone(bucketNum, before, id);
        released := -1;
        NoneReleased(bucketNum, before, shape, released);
      }
    }

    method VacateBucket(ghost id: Ident, bucket: nat)
      requires Mirrored() && bucket < |buckets| && Inv(bucketNum, mem, shape)
      requires id in shape.place && shape.place[id] == bucket
      modifies this`mem, this`shape, buckets[bucket]
      ensures Mirrored() && Inv(bucketNum, mem, shape) && |mem| == |old(mem)|
      ensures shape == old(shape).(place := old(shape.place) - {id})
      ensures bucket < |old(mem)| && mem == old(mem)[bucket := old(mem)[bucket].(occupied := false)]
      ensures forall i :: i in shape.place ==> shape.place[i] < |mem|
      ensures forall i :: i in old(shape.place) ==> old(shape.place)[i] < |old(mem)|
      ensures Contents(mem, shape.place) == Contents(old(mem), old(shape.place)) - {id}
    {
      hide *;
      Bounds(bucketNum, mem, shape);
      Vacate(bucketNum, mem, shape, id);
      MirrorAt(bucket);
      buckets[bucket].SetBucketOccupied(false);
      mem := mem[bucket := buckets[bucket].Get()];
      Rewritten(bucket);
      shape := shape.(place := shape.place - {id});
      Bounds(bucketNum, mem, shape);
    }

    // The part of a deletion that concerns a primary slot, once its bucket is no longer occupied.
    method ReleasePrimary(h: nat) returns (released: int)
      requires Valid() && h < bucketNum <= |buckets| == |mem| && !mem[h].occupied && h < |shape.chains|
      modifies this`mem, this`shape, buckets
      ensures Valid() && Map() == old(Map()) && 0 <= released < |buckets|
      ensures released == h <==> old(shape.chains)[h] == []
      ensures released != h ==> bucketNum <= released && released !in shape.owner
      ensures SlotReleased(bucketNum, old(shape), shape, released)
    {
      hide *;
      Opened();
      NextTells(bucketNum, mem, shape, h);
      MirrorAt(h);
      var next := buckets[h].next;
      if bucketNum <= next {
        PullUp(bucketNum, mem, shape, h);
        PulledUpIs(mem, shape, h);
        OneSlotReleased(bucketNum, mem, shape, h);
        MirrorAt(next);
        ghost var after := PulledUp(mem, shape, h);
        buckets[h].Assign(buckets[next]);
        mem := mem[h := buckets[h].Get()];
        Rewritten(h);
        label Moved:
        buckets[next].Clear();
        mem := mem[next := buckets[next].Get()];
        Rewritten@Moved(next);
        shape := after;
        released := next;
      } else {
        ClearPrimary(bucketNum, mem, shape, h);
        NoneReleased(bucketNum, shape, shape, h);
        ClearedContents(bucketNum, mem, shape, h);
        buckets[h].Clear();
        mem := mem[h := buckets[h].Get()];
        Rewritten(h);
        released := h;
      }
      Closed();
    }

    // The size kept in the header is the number of keys the table tells apart.
    method GetSize() returns (size: nat)
      requires Valid()
      ensures size == |Map()|
    {
      hide *;
      Opened();
      MapIs();
      ContentsSize(mem, shape.place);
      size := usedSize;
    }

    lemma MapIs()
      requires Valid()
      ensures forall id :: id in shape.place ==> shape.place[id] < |mem|
      ensures Map() == Contents(mem, shape.place) && usedSize == |shape.place|
    {
    }

    // The iterator's element n places on from `ele`, or -1 for the end; -1 stands for the null element.
    method GetNextElement(ele: int, n: int) returns (next: int)
      requires Valid() && n < 0x7FFF_FFFF
      requires ele == -1 || (0 <= ele < |mem| && InChain(bucketNum, shape.owner, ele))
      ensures ele == -1 || n < 0 ==> next == -1
      ensures 0 <= ele && 0 <= n ==>
        next == Pick(Ahead(bucketNum, mem, shape, ele), if mem[ele].occupied then n + 1 else n)
    {
      hide *;
      if ele < 0 || n < 0 {
        return -1;
      }
      Opened();
      var at: nat := ele;
      MirrorAt(at);
      ghost var h, i := StandStarts(bucketNum, mem, shape, at);
      var m := if buckets[at].occupied then n + 1 else n;
      ghost var goal := Pick(Rest(mem, shape.chains, h, i), m);
      while true
        invariant h < |shape.chains| && Standing(bucketNum, mem, shape, h, i, at)
        invariant goal == Pick(Rest(mem, shape.chains, h, i), m)
        decreases bucketNum - h
      {
        StandStep(bucketNum, mem, shape, h, i, at, m);
        MirrorAt(at);
        if buckets[at].occupied {
          m := m - 1;
          if m <= 0 {
            return at;
          }
        }
        while bucketNum <= buckets[at].next
          invariant Standing(bucketNum, mem, shape, h, i, at) && at < |mem| && buckets[at].next == mem[at].next
          invariant goal == Pick(Rest(mem, shape.chains, h, i + 1), m)
          decreases |shape.chains[h]| - i
        {
          StandNext(bucketNum, mem, shape, h, i, at);
          at := buckets[at].next;
          i := i + 1;
          StandStep(bucketNum, mem, shape, h, i, at, m);
          MirrorAt(at);
          if buckets[at].occupied {
            m := m - 1;
            if m <= 0 {
              return at;
            }
          }
        }
        StandEnds(bucketNum, mem, shape, h, i, at);
        while bucketNum <= at
          invariant at == h || (bucketNum <= at < |mem| && buckets[at].next == h)
          decreases if at == h then 0 else 1
        {
          at := buckets[at].next;
        }
        at := at + 1;
        if bucketNum <= at {
          NothingLeft(mem, shape.chains, h + 1, m);
          return -1;
        }
        StandHome(bucketNum, mem, shape, h + 1);
        h, i := h + 1, 0;
      }
    }

    method Begin() returns (first: int)
      requires Valid()
      ensures var order := Order(mem, shape.chains);
        first == if order == [] then -1 else order[0]
    {
      FirstInOrder(bucketNum, mem, shape);
      hide *;
      Opened();
      if usedSize == 0 {
        return -1;
      }
      MirrorAt(0);
      if buckets[0].occupied {
        return 0;
      }
      first := GetNextElement(0, 1);
      PickFirst(Order(mem, shape.chains));
    }

    // A client's loop from begin to end: it meets every occupied bucket exactly once, in `usedSize` steps.
    method Visit() returns (visited: seq<nat>)
      requires Valid()
      ensures visited == Order(mem, shape.chains)
      ensures |visited| == usedSize && Once(visited)
      ensures forall k: nat :: k in visited <==> k < |mem| && mem[k].occupied
    {
      hide *;
      Opened();
      ghost var order := Order(mem, shape.chains);
      visited := [];
      var at := Begin();
      while at != -1
        invariant |visited| <= |order| && visited == order[..|visited|]
        invariant at == if |visited| < |order| then order[|visited|] else -1
        decreases |order| - |visited|
      {
        OrderBuckets(bucketNum, mem, shape, |visited|);
        NextInOrder(bucketNum, mem, shape, at, |visited|, 1);
        visited := visited + [at];
        at := GetNextElement(at, 1);
      }
      OrderCounts(bucketNum, mem, shape);
      forall k: nat {
        OrderIsOccupied(bucketNum, mem, shape, k);
      }
    }
  }

  lemma ShortMark(hash: Hash, n: nat, key: seq<byte>)
    requires 0 < n && 1 <= |key| <= PAYLOAD_SIZE
    ensures IdentOf(hash, n, key) == Ident(HomeOfKey(hash, n, key), Short(key))
    ensures Short(key).Proper()
  {
  }

  lemma LongMark(hash: Hash, n: nat, key: seq<byte>)
    requires 0 < n && PAYLOAD_SIZE < |key|
    ensures var p := Long(|key|, Word(hash(key, CHECK_KEY_SEED)), LowBytes(Word(hash(key, CHECK_PAYLOAD_SEED))));
      IdentOf(hash, n, key) == Ident(HomeOfKey(hash, n, key), p) && p.Proper()
  {
  }

  lemma LongMatch(c: Cell, len: nat, code: nat, tail: Payload)
    ensures Matches(c, Long(len, code, tail)) <==> c.size == len && c.code == code && c.hashed && c.payload == tail
  {
  }

  lemma StampOf(hash: Hash, c: Cell, key: seq<byte>)
    requires key != []
    ensures MarkOf(hash, key).Proper()
    ensures |key| <= PAYLOAD_SIZE ==> Stamped(c, MarkOf(hash, key)) == Stamped(c, Short(key))
    ensures |key| > PAYLOAD_SIZE ==>
      Stamped(c, MarkOf(hash, key)) == c.(size := |key| % 256).(code := Word(hash(key, CHECK_KEY_SEED)) % 0x1_0000_0000)
       .(payload := LowBytes(Word(hash(key, CHECK_PAYLOAD_SEED))), hashed := true)
  {
  }

  lemma StorableMark(hash: Hash, n: nat, key: seq<byte>)
    requires 0 < n && 1 <= |key| <= 255
    ensures IdentOf(hash, n, key) == Ident(HomeOfKey(hash, n, key), MarkOf(hash, key))
    ensures MarkOf(hash, key).Storable() && MarkOf(hash, key).Proper()
  {
  }

  lemma StampPrimary(n: nat, mem: seq<Cell>, s: Shape, h: nat, p: Print)
    requires Inv(n, mem, s) && h < n && p.Storable() && p.Proper() && h < |mem| && !mem[h].occupied
    ensures var after := mem[h := Stamped(mem[h], p)];
      && Inv(n, after, s) && InChain(n, s.owner, h) && HomeOf(n, s.owner, h) == h
      && !after[h].occupied && Canonical(after[h]) && PrintOf(after[h]) == p
      && (forall id :: id in s.place ==> s.place[id] < |mem|)
      && Contents(after, s.place) == Contents(mem, s.place)
  {
    RewriteFree(n, mem, s, h, Stamped(mem[h], p));
    StampedMatchesOnlyIts(mem[h], p, p);
  }

  // The three writes that put a new bucket behind the last one of its chain.
  lemma LinkWrites(n: nat, mem: seq<Cell>, s: Shape, h: nat, last: nat, pick: nat, p: Print)
    requires Inv(n, mem, s) && h < n && p.Storable() && p.Proper() && n <= pick < |mem| && pick !in s.owner
    requires EndsChain(s, h, last)
    ensures last < |mem| && h < |s.chains| && Extended(s, h, pick).place == s.place
    ensures var stamped := mem[pick := Stamped(mem[pick], p)];
      var linked := stamped[last := stamped[last].(next := pick)];
      var after := linked[pick := linked[pick].(next := h)];
      var t := Extended(s, h, pick);
      && Inv(n, after, t) && InChain(n, t.owner, pick) && HomeOf(n, t.owner, pick) == h
      && !after[pick].occupied && Canonical(after[pick]) && PrintOf(after[pick]) == p
      && (forall id :: id in s.place ==> s.place[id] < |mem|)
      && Contents(after, s.place) == Contents(mem, s.place)
  {
    hide *;
    LinkFresh(n, mem, s, h, pick, p);
    UnusedIsClear(n, mem, s, pick);
    Bounds(n, mem, s);
    EndIs(s, h, last);
    WritesAre(mem, h, last, pick, Stamped(ZERO, p));
  }

  lemma EndIs(s: Shape, h: nat, last: nat)
    requires EndsChain(s, h, last)
    ensures h < |s.chains| && last == At(s.chains[h], h, |s.chains[h]|)
  {
  }

  lemma WritesAre(mem: seq<Cell>, h: nat, last: nat, pick: nat, c: Cell)
    requires last < |mem| && pick < |mem| && last != pick
    ensures var stamped := mem[pick := c];
      var linked := stamped[last := stamped[last].(next := pick)];
      linked[pick := linked[pick].(next := h)] == LinkedIn(mem, last, pick, c.(next := h))
  {
  }

  lemma ContentsSize(mem: seq<Cell>, place: map<Ident, nat>)
    requires forall id :: id in place ==> place[id] < |mem|
    ensures |Contents(mem, place)| == |place|
  {
    assert Contents(mem, place).Keys == place.Keys;
  }

  lemma MapWithout(mem: seq<Cell>, place: map<Ident, nat>, id: Ident)
    requires forall i :: i in place ==> place[i] < |mem|
    ensures id !in place ==> Contents(mem, place) - {id} == Contents(mem, place)
    ensures id in place ==> |place - {id}| == |place| - 1
  {
    MapShrinks(place, id);
  }

  lemma MapShrinks(place: map<Ident, nat>, id: Ident)
    ensures id in place ==> |place - {id}| == |place| - 1
  {
    assert (place - {id}).Keys == place.Keys - {id};
  }

  lemma PlaceHome(n: nat, mem: seq<Cell>, s: Shape, id: Ident)
    requires Inv(n, mem, s) && id in s.place
    ensures s.place[id] < n ==> id.home == s.place[id]
    ensures n <= s.place[id] ==> id.home != s.place[id]
    ensures id.home < |s.chains| && s.place[id] < |mem|
  {
  }

  lemma NextTells(n: nat, mem: seq<Cell>, s: Shape, h: nat)
    requires Inv(n, mem, s) && h < n
    ensures h < |s.chains| && h < |mem|
    ensures n <= mem[h].next <==> s.chains[h] != []
    ensures s.chains[h] != [] ==> mem[h].next == s.chains[h][0] && s.chains[h][0] < |mem|
  {
    assert Linked(mem, n, h, s.chains[h]);
  }

  lemma PulledUpIs(mem: seq<Cell>, s: Shape, h: nat)
    requires h < |s.chains| && s.chains[h] != [] && s.chains[h][0] < |mem|
    requires PulledUp(mem, s, h).place.Keys == s.place.Keys
    ensures PulledUp(mem, s, h).owner == s.owner - {s.chains[h][0]}
    ensures |PulledUp(mem, s, h).place| == |s.place|
  {
    assert |PulledUp(mem, s, h).place| == |PulledUp(mem, s, h).place.Keys|;
  }

  lemma GrownContents(n: nat, mem: seq<Cell>, s: Shape)
    requires Inv(n, mem, s)
    ensures forall id :: id in s.place ==> s.place[id] < |mem|
    ensures Contents(mem + [ZERO], s.place) == Contents(mem, s.place)
  {
  }

  lemma ClearedContents(n: nat, mem: seq<Cell>, s: Shape, h: nat)
    requires Inv(n, mem, s) && h < |mem| && !mem[h].occupied
    ensures forall id :: id in s.place ==> s.place[id] < |mem|
    ensures Contents(mem[h := ZERO], s.place) == Contents(mem, s.place)
  {
  }

  // ---------- which slots of the pool are in the chains ----------

  ghost predicate HomeIsFull(mem: seq<Cell>, id: Ident) {
    id.home < |mem| && mem[id.home].occupied
  }

  lemma HomeFullIs(mem: seq<Cell>, id: Ident, h: nat)
    requires h == id.home < |mem|
    ensures HomeIsFull(mem, id) <==> mem[h].occupied
  {
  }

  lemma MapKeys(mem: seq<Cell>, place: map<Ident, nat>)
    requires forall id :: id in place ==> place[id] < |mem|
    ensures forall id :: id in Contents(mem, place) <==> id in place
  {
  }

  // An insertion brings the slot it was given into a chain, or no slot.
  ghost predicate SlotTaken(before: Shape, after: Shape, taken: bool, pick: nat) {
    if taken then pick !in before.owner && after.owner.Keys == before.owner.Keys + {pick}
    else after.owner == before.owner && after.chains == before.chains
  }

  // A deletion takes the overflow slot that it gives back out of its chain, and no other.
  ghost predicate SlotReleased(n: nat, before: Shape, after: Shape, released: int) {
    if n <= released then released in before.owner && after.owner == before.owner - {released}
    else after.owner == before.owner && after.chains == before.chains
  }

  lemma NoSlotTaken(s: Shape, pick: nat)
    ensures SlotTaken(s, s, false, pick)
  {
  }

  lemma OneSlotTaken(s: Shape, h: nat, pick: nat)
    requires h < |s.chains| && pick !in s.owner
    ensures SlotTaken(s, Extended(s, h, pick), true, pick)
  {
  }

  lemma SlotsStay(before: Shape, after: Shape, taken: bool, pick: nat, place: map<Ident, nat>)
    requires SlotTaken(before, after, taken, pick)
    ensures SlotTaken(before, after.(place := place), taken, pick)
  {
  }

  lemma NoSlotReleased(n: nat, s: Shape)
    ensures SlotReleased(n, s, s, -1)
  {
  }

  lemma NoneReleased(n: nat, before: Shape, after: Shape, released: int)
    requires released < n && after.owner == before.owner && after.chains == before.chains
    ensures SlotReleased(n, before, after, released)
  {
  }

  lemma OneSlotReleased(n: nat, mem: seq<Cell>, s: Shape, h: nat)
    requires Inv(n, mem, s) && h < n && s.chains[h] != [] && s.chains[h][0] < |mem|
    ensures SlotReleased(n, s, PulledUp(mem, s, h), s.chains[h][0])
  {
    assert s.chains[h][0] in s.owner;
  }

  lemma SameOwners(n: nat, before: Shape, between: Shape, after: Shape, released: int)
    requires SlotReleased(n, between, after, released)
    requires between.owner == before.owner && between.chains == before.chains
    ensures SlotReleased(n, before, after, released)
  {
  }

  // A key that lives in its primary slot, with no successor in the chain.
  ghost predicate LonePrimary(n: nat, s: Shape, id: Ident) {
    id in s.place && s.place[id] == id.home < n && id.home < |s.chains| && s.chains[id.home] == []
  }

  lemma LoneIs(n: nat, s: Shape, id: Ident)
    requires id in s.place && s.place[id] < n && id.home == s.place[id] && id.home < |s.chains|
    ensures LonePrimary(n, s, id) <==> s.chains[id.home] == []
  {
  }

  lemma NotLone(n: nat, s: Shape, id: Ident)
    requires id !in s.place || n <= s.place[id]
    ensures !LonePrimary(n, s, id)
  {
  }

  lemma PickFirst(order: seq<nat>)
    ensures Pick(order, 1) == if order == [] then -1 else order[0]
  {
  }
}
