// The 64-bit hash keys under which the sorted table files byte keys.
module SortKeys {
  import opened Bytes

  // What callers pass: a null pointer or some bytes.
  datatype Key = NullKey | Key(bytes: seq<byte>)

  type Hash = (seq<byte>, nat) -> nat

  const HIGH_HASH_SEED: nat := 0x89741511
  const LOW_HASH_SEED: nat := 0x15118974
  const TWO64: int := 0x1_0000_0000_0000_0000

  // A 64-bit word read as a signed integer.
  function Signed64(x: int): int
    requires 0 <= x < TWO64
  {
    if x < TWO64 / 2 then x else x - TWO64
  }

  // Keys of up to eight bytes are their own hash key; longer ones put two 32-bit hashes side by side.
  function HashKey(hash: Hash, key: seq<byte>): int {
    if |key| <= 8 then
      LittleBound(key); PowerGrows(|key|, 8); PowerValues();
      Signed64(Little(key))
    else
      Signed64(hash(key, HIGH_HASH_SEED) % 0x1_0000_0000 * 0x1_0000_0000 + hash(key, LOW_HASH_SEED) % 0x1_0000_0000)
  }

  function Zeros(k: nat): (z: seq<byte>)
    ensures |z| == k
  {
    if k == 0 then [] else [0] + Zeros(k - 1)
  }

  function Padded(key: seq<byte>): seq<byte>
    requires |key| <= 8
  {
    key + Zeros(8 - |key|)
  }

  lemma {:induction false} LittlePadded(key: seq<byte>, zeros: nat)
    ensures Little(key + Zeros(zeros)) == Little(key)
    decreases |key| + zeros
  {
    var padded := key + Zeros(zeros);
    if key != [] {
      assert padded[1..] == key[1..] + Zeros(zeros);
      LittlePadded(key[1..], zeros);
    } else if zeros != 0 {
      assert padded[1..] == key + Zeros(zeros - 1);
      LittlePadded(key, zeros - 1);
    }
  }

  lemma ShortKeysAsNumbers(hash: Hash, a: seq<byte>, b: seq<byte>)
    requires |a| <= 8 && |b| <= 8
    ensures HashKey(hash, a) == HashKey(hash, b) <==> Little(a) == Little(b)
  {
    hide Little, Power256;
    LittleBound(a);
    LittleBound(b);
    PowerGrows(|a|, 8);
    PowerGrows(|b|, 8);
    PowerValues();
  }

  // Two short keys are one key to the table exactly when they differ at most in trailing zero bytes.
  lemma ShortKeysCollideIff(hash: Hash, a: seq<byte>, b: seq<byte>)
    requires |a| <= 8 && |b| <= 8
    ensures HashKey(hash, a) == HashKey(hash, b) <==> Padded(a) == Padded(b)
  {
    hide HashKey, Little, Zeros;
    ShortKeysAsNumbers(hash, a, b);
    LittlePadded(a, 8 - |a|);
    LittlePadded(b, 8 - |b|);
    if Little(a) == Little(b) {
      LittleInjective(Padded(a), Padded(b));
    }
  }

  // ---------- what the hash key is, in numbers ----------

  // A hash key is a signed 64-bit word: the bytes of a short key, low byte first, or the two 32-bit hashes of a long
  // one, the one with the first seed above the other.
  lemma HashKeyIs(hash: Hash, key: seq<byte>)
    ensures -0x8000_0000_0000_0000 <= HashKey(hash, key) < 0x8000_0000_0000_0000
    ensures |key| <= 8 ==> (HashKey(hash, key) - Little(key)) % 0x1_0000_0000_0000_0000 == 0
    ensures |key| > 8 ==>
      var high, low := hash(key, 0x89741511) % 0x1_0000_0000, hash(key, 0x15118974) % 0x1_0000_0000;
      (HashKey(hash, key) - (high * 0x1_0000_0000 + low)) % 0x1_0000_0000_0000_0000 == 0
  {
    hide Little, Power256;
    if |key| <= 8 {
      LittleBound(key);
      PowerGrows(|key|, 8);
      PowerValues();
      SignedIs(Little(key));
    } else {
      SignedIs(hash(key, 0x89741511) % 0x1_0000_0000 * 0x1_0000_0000 + hash(key, 0x15118974) % 0x1_0000_0000);
    }
  }

  lemma SignedIs(x: int)
    requires 0 <= x < 0x1_0000_0000_0000_0000
    ensures -0x8000_0000_0000_0000 <= Signed64(x) < 0x8000_0000_0000_0000
    ensures (Signed64(x) - x) % 0x1_0000_0000_0000_0000 == 0
  {
  }

  // Two long keys are one key to the table exactly when both of their 32-bit hashes agree.
  lemma LongKeysCollideIff(hash: Hash, a: seq<byte>, b: seq<byte>)
    requires 8 < |a| && 8 < |b|
    ensures HashKey(hash, a) == HashKey(hash, b) <==>
      && hash(a, 0x89741511) % 0x1_0000_0000 == hash(b, 0x89741511) % 0x1_0000_0000
      && hash(a, 0x15118974) % 0x1_0000_0000 == hash(b, 0x15118974) % 0x1_0000_0000
  {
  }

  // A short key and a long one are one key exactly when the short one's bytes, padded, spell the long one's hashes.
  lemma ShortMeetsLongIff(hash: Hash, a: seq<byte>, b: seq<byte>)
    requires |a| <= 8 < |b|
    ensures HashKey(hash, a) == HashKey(hash, b) <==>
      && Little(Padded(a)[..4]) == hash(b, 0x15118974) % 0x1_0000_0000
      && Little(Padded(a)[4..]) == hash(b, 0x89741511) % 0x1_0000_0000
  {
    hide Little, Power256, Padded, Zeros;
    var key := Padded(a);
    PaddedIs(a);
    LittlePadded(a, 8 - |a|);
    LittleJoin(key[..4], key[4..]);
    assert key[..4] + key[4..] == key;
    LittleBound(key[..4]);
    LittleBound(key[4..]);
    PowerValues();
    LittleBound(a);
    PowerGrows(|a|, 8);
  }

  lemma PaddedIs(key: seq<byte>)
    requires |key| <= 8
    ensures |Padded(key)| == 8 && Padded(key) == key + Zeros(8 - |key|)
  {
  }
}
