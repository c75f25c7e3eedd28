// One bucket of the chained hash index, with the field widths of its packed record.
module HashBuckets {
  import opened Bytes

  const PAYLOAD_SIZE: nat := 2

  // The two payload bytes of a bucket.
  type Payload = s: seq<byte> | |s| == 2 witness [0, 0]

  // Sign-extended low 48 bits, as stored in the value field.
  function Wrap48(v: int): (w: int)
    ensures -0x8000_0000_0000 <= w < 0x8000_0000_0000
    ensures (v - w) % 0x1_0000_0000_0000 == 0
    ensures -0x8000_0000_0000 <= v < 0x8000_0000_0000 ==> w == v
  {
    var low := v % 0x1_0000_0000_0000;
    if low < 0x8000_0000_0000 then low else low - 0x1_0000_0000_0000
  }

  // The first two bytes of a 32-bit code in memory, low byte first.
  function LowBytes(code: nat): Payload {
    Encoded(code, PAYLOAD_SIZE)
  }

  datatype Cell = Cell(value: int, next: nat, occupied: bool, hashed: bool, keyed: bool,
                       code: nat, size: nat, payload: Payload)

  const ZERO: Cell := Cell(0, 0, false, false, false, 0, 0, [0, 0])

  function Clamp(len: nat): nat { if len > PAYLOAD_SIZE then PAYLOAD_SIZE else len }

  // What a bucket can tell of a key: all of it when it fits the payload, otherwise its length and two hashes.
  datatype Print = Short(key: seq<byte>) | Long(len: nat, code: nat, tail: Payload) {
    predicate Proper() {
      match this
      case Short(key) => 1 <= |key| <= PAYLOAD_SIZE
      case Long(len, _, _) => PAYLOAD_SIZE < len
    }

    // Lengths the one-byte size field can hold.
    predicate Storable() {
      Proper() && (Long? ==> len <= 255)
    }
  }

  predicate Matches(c: Cell, p: Print) {
    match p
    case Short(key) => c.keyed && |key| == c.size && c.payload[..Clamp(|key|)] == key[..Clamp(|key|)]
    case Long(len, code, tail) => c.size == len && c.code == code && c.hashed && c.payload == tail
  }

  // The bucket after its key fields were set for a key with print p.
  function Stamped(c: Cell, p: Print): Cell
    requires p.Proper()
  {
    match p
    case Short(key) => c.(keyed := true, size := |key|, payload := key + c.payload[|key|..])
    case Long(len, code, tail) => c.(hashed := true, size := len % 256, code := code, payload := tail)
  }

  // Key fields that a stamp left behind: exactly one print matches them.
  ghost predicate Canonical(c: Cell) {
    1 <= c.size <= 255 && if c.size <= PAYLOAD_SIZE then c.keyed else c.hashed
  }

  function PrintOf(c: Cell): Print {
    if c.size <= PAYLOAD_SIZE then Short(c.payload[..c.size]) else Long(c.size, c.code, c.payload)
  }

  lemma StampedMatchesOnlyIts(c: Cell, p: Print, q: Print)
    requires p.Storable() && q.Proper()
    ensures Canonical(Stamped(c, p)) && PrintOf(Stamped(c, p)) == p
    ensures Matches(Stamped(c, p), q) <==> p == q
  {
    CanonicalMatchesOnce(Stamped(c, p), q);
  }

  lemma CanonicalMatchesOnce(c: Cell, q: Print)
    requires Canonical(c) && q.Proper()
    ensures Matches(c, q) <==> PrintOf(c) == q
  {
    if q.Short? {
      assert q.key[..Clamp(|q.key|)] == q.key;
    }
  }

  class HashBucket {
    var value: int
    var next: nat
    var occupied: bool
    var hashed: bool
    var keyed: bool
    var code: nat
    var size: nat
    var payload: Payload

    function Get(): Cell
      reads this
    {
      Cell(value, next, occupied, hashed, keyed, code, size, payload)
    }

    constructor ()
      ensures Get() == ZERO
    {
      value, next, occupied, hashed, keyed, code, size, payload := 0, 0, false, false, false, 0, 0, [0, 0];
    }

    method Clear()
      modifies this
      ensures Get() == ZERO
    {
      value, next, occupied, hashed, keyed, code, size, payload := 0, 0, false, false, false, 0, 0, [0, 0];
    }

    method Assign(bucket: HashBucket)
      modifies this
      ensures Get() == old(bucket.Get())
    {
      size := bucket.size;
      code := bucket.code;
      value := bucket.value;
      next := bucket.next;
      payload := bucket.payload;
      occupied, hashed, keyed := bucket.occupied, bucket.hashed, bucket.keyed;
    }

    method SetBucketOccupied(flag: bool)
      modifies this`occupied
      ensures Get() == old(Get()).(occupied := flag)
    {
      occupied := flag;
    }

    method SetHashCodeInPayload(hashCode: nat)
      modifies this
      ensures Get() == old(Get()).(payload := LowBytes(hashCode), hashed := true)
    {
      payload := LowBytes(hashCode);
      hashed := true;
    }

    method CheckHashCodeInPayload(hashCode: nat) returns (same: bool)
      ensures same <==> hashed && payload == LowBytes(hashCode)
    {
      if !hashed {
        return false;
      }
      return payload == LowBytes(hashCode);
    }

    method SetKeyInPayload(key: seq<byte>)
      modifies this
      ensures |key| <= PAYLOAD_SIZE && key != [] ==> Get() == Stamped(old(Get()), Short(key))
      ensures size == |key| % 256 && keyed
      ensures payload == key[..Clamp(|key|)] + old(payload)[Clamp(|key|)..]
    {
      size := |key| % 256;
      var len := Clamp(|key|);
      payload := key[..len] + payload[len..];
      keyed := true;
      assert |key| <= PAYLOAD_SIZE ==> key[..len] == key;
    }

    // The length test compares a full-width length with the one-byte size.
    method CheckKeyInPayload(key: seq<byte>) returns (same: bool)
      ensures same <==> Matches(Get(), Short(key))
    {
      if !keyed || |key| != size {
        return false;
      }
      var len := Clamp(|key|);
      return key[..len] == payload[..len];
    }

    method SetNextBucket(index: nat)
      modifies this`next
      ensures Get() == old(Get()).(next := index % 0x2000_0000)
    {
      next := index % 0x2000_0000;
    }

    method SetHashCode(hashCode: nat)
      modifies this`code
      ensures Get() == old(Get()).(code := hashCode % 0x1_0000_0000)
    {
      code := hashCode % 0x1_0000_0000;
    }

    method SetValue(v: int)
      modifies this`value
      ensures Get() == old(Get()).(value := Wrap48(v))
    {
      value := Wrap48(v);
    }

    method SetKeySize(len: nat)
      modifies this`size
      ensures Get() == old(Get()).(size := len % 256)
    {
      size := len % 256;
    }
  }
}
