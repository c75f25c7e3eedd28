// Bytes and little-endian numbers.
module Bytes {
  import opened Bits

  type byte = x: int | 0 <= x < 256

  function Power256(k: nat): (p: nat)
    ensures 1 <= p
  {
    if k == 0 then 1 else 256 * Power256(k - 1)
  }

  // The number a byte sequence stands for, low byte first.
  function Little(bytes: seq<byte>): (x: nat)
    decreases |bytes|
  {
    if bytes == [] then 0 else bytes[0] + 256 * Little(bytes[1..])
  }

  // The low k bytes of a number, low byte first.
  function Encoded(x: nat, k: nat): (bytes: seq<byte>)
    ensures |bytes| == k
    decreases k
  {
    if k == 0 then [] else [x % 256] + Encoded(x / 256, k - 1)
  }

  lemma {:induction false} LittleBound(bytes: seq<byte>)
    ensures Little(bytes) < Power256(|bytes|)
    decreases |bytes|
  {
    if bytes != [] {
      LittleBound(bytes[1..]);
    }
  }

  lemma {:induction false} PowerGrows(j: nat, k: nat)
    requires j <= k
    ensures Power256(j) <= Power256(k)
    decreases k
  {
    if j < k {
      PowerGrows(j, k - 1);
    }
  }

  lemma PowerValues()
    ensures Power256(4) == 0x1_0000_0000 && Power256(8) == 0x1_0000_0000_0000_0000
  {
    assert Power256(2) == 0x1_0000 && Power256(4) == 0x1_0000_0000 && Power256(6) == 0x1_0000_0000_0000;
  }

  lemma {:induction false} LittleInjective(a: seq<byte>, b: seq<byte>)
    requires |a| == |b| && Little(a) == Little(b)
    ensures a == b
    decreases |a|
  {
    if a != [] {
      assert a[0] == b[0];
      LittleInjective(a[1..], b[1..]);
      assert a == [a[0]] + a[1..] && b == [b[0]] + b[1..];
    }
  }

  // Numbers that fit k bytes survive the round trip.
  lemma {:induction false} LittleEncoded(x: nat, k: nat)
    requires x < Power256(k)
    ensures Little(Encoded(x, k)) == x
    decreases k
  {
    if k != 0 {
      LittleEncoded(x / 256, k - 1);
      assert Encoded(x, k)[1..] == Encoded(x / 256, k - 1);
    }
  }

  // Each byte is the digit of its place, so the low byte comes first.
  lemma {:induction false} LittleDigit(bytes: seq<byte>, i: nat)
    requires i < |bytes|
    ensures Little(bytes) / Power256(i) % 256 == bytes[i]
    decreases i
  {
    if i != 0 {
      LittleDigit(bytes[1..], i - 1);
      DropDigit(Little(bytes), bytes[0], Little(bytes[1..]), Power256(i - 1));
    }
  }

  lemma DropDigit(x: nat, d: nat, y: nat, p: nat)
    requires x == d + 256 * y && d < 256 && 1 <= p
    ensures x / (256 * p) == y / p
  {
    var q, r := y / p, y % p;
    assert y == p * q + r;
    assert x == 256 * p * q + (256 * r + d);
    assert 0 <= 256 * r + d < 256 * p;
    QuotientUnique(x, 256 * p, q, 256 * r + d);
  }

  lemma QuotientUnique(x: int, d: nat, q: int, r: int)
    requires 0 <= r < d && x == d * q + r
    ensures x / d == q
  {
    RemainderUnique(x, d, q, r);
  }

  lemma {:induction false} LittleJoin(a: seq<byte>, b: seq<byte>)
    ensures Little(a + b) == Little(a) + Power256(|a|) * Little(b)
    decreases |a|
  {
    if a == [] {
      assert a + b == b;
    } else {
      assert (a + b)[1..] == a[1..] + b;
      LittleJoin(a[1..], b);
      Regroup(a[0], Little(a[1..]), Power256(|a| - 1), Little(b));
    }
  }

  lemma Regroup(d: int, x: int, p: int, y: int)
    ensures d + 256 * (x + p * y) == d + 256 * x + 256 * p * y
  {
  }
}
