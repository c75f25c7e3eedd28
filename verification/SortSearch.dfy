// Records in key order, and where the (2^L)-way search puts its probes.
module SortSearch {
  import opened Bits

  datatype Record = Record(key: int, value: int)

  predicate Sorted(s: seq<Record>) {
    forall i, j :: 0 <= i < j < |s| ==> s[i].key < s[j].key
  }

  predicate WeaklySorted(s: seq<Record>) {
    forall i, j :: 0 <= i < j < |s| ==> s[i].key <= s[j].key
  }

  function Keys(s: seq<Record>): set<int> {
    set i | 0 <= i < |s| :: s[i].key
  }

  // The index of the greatest record below the key, or -1.
  predicate NearestLess(s: seq<Record>, key: int, pos: int)
    ensures NearestLess(s, key, pos) ==> -1 <= pos < |s|
  {
    && -1 <= pos < |s|
    && (forall i :: 0 <= i <= pos ==> s[i].key < key)
    && (forall i :: pos < i < |s| ==> key < s[i].key)
  }

  // A value stored into a 32-bit signed integer.
  function Int32(x: int): int {
    (x + 0x8000_0000) % 0x1_0000_0000 - 0x8000_0000
  }

  lemma Int32InRange(x: int)
    requires -0x8000_0000 <= x < 0x8000_0000
    ensures Int32(x) == x
  {
  }

  // The i-th probe into a range of `size` records that starts at `left`, when the range is cut into `ways` parts.
  function Probe(left: int, size: nat, ways: nat, i: nat): int
    requires 0 < ways
  {
    left + size / ways * i + (if i > size % ways then size % ways else i) + size / ways / 2
  }

  lemma DivisionParts(size: nat, ways: nat)
    requires 0 < ways
    ensures size == size / ways * ways + size % ways
    ensures size < ways ==> size / ways == 0 && size % ways == size
    ensures ways <= size ==> 1 <= size / ways
  {
    if size < ways {
      RemainderUnique(size, ways, 0, size);
    }
  }

  // Probes rise, start inside the range, and the first one outside it lies exactly one past the end.
  lemma ProbesRise(left: int, size: nat, ways: nat, i: nat)
    requires 1 <= size && 2 <= ways && i + 1 < ways
    ensures left <= Probe(left, size, ways, 0) <= left + size - 1
    ensures left <= Probe(left, size, ways, i)
    ensures ways <= size ==> Probe(left, size, ways, i) <= left + size - 1
    ensures size < ways ==> Probe(left, size, ways, i) == left + (if i < size then i else size)
  {
    DivisionParts(size, ways);
    var base, rem := size / ways, size % ways;
    if size < ways {
      assert base * i == 0;
    } else {
      ProbeBound(base, ways, i);
    }
  }

  lemma ProbeBound(base: nat, ways: nat, i: nat)
    requires i + 1 < ways
    ensures 0 <= base * i && base * i + 2 * base <= base * ways
  {
    MulMonotone(base, i + 2, ways);
    assert base * (i + 2) == base * i + 2 * base;
    MulMonotone(base, 0, i);
  }

  lemma ProbesApart(left: int, size: nat, ways: nat, i: nat)
    requires 1 <= size && 2 <= ways && i + 2 < ways
    requires Probe(left, size, ways, i) <= left + size - 1
    ensures Probe(left, size, ways, i) < Probe(left, size, ways, i + 1)
  {
    DivisionParts(size, ways);
    var base := size / ways;
    assert base * (i + 1) == base * i + base;
    ProbesRise(left, size, ways, i);
  }

  // The source's expression for a probe: shift, mask, 64-bit sum stored into a 32-bit integer.
  function ProbeWord(left: int, size: nat, level: nat, i: nat): int {
    var base, rem := size / Pow2(level), And(size, Pow2(level) - 1);
    Int32(left + base * i + (if i > rem then rem else i) + base / 2)
  }

  lemma ProbeRound(left: int, right: int, size: nat, level: nat, i: nat)
    requires 1 <= level && 0 <= left <= right < 0x7FFF_FFFF && size == right - left + 1
    requires i + 1 < Pow2(level)
    requires 0 < i ==> left <= ProbeWord(left, size, level, i - 1) <= right
    ensures left <= ProbeWord(left, size, level, i) <= right + 1
    ensures 0 < i ==> ProbeWord(left, size, level, i - 1) < ProbeWord(left, size, level, i)
    ensures i == 0 ==> ProbeWord(left, size, level, i) <= right
  {
    var ways := Pow2(level);
    WordIsProbe(left, right, size, level, i);
    if 0 < i {
      WordIsProbe(left, right, size, level, i - 1);
      ProbesApart(left, size, ways, i - 1);
    }
    ProbesRise(left, size, ways, i);
  }

  lemma WordIsProbe(left: int, right: int, size: nat, level: nat, i: nat)
    requires 1 <= level && 0 <= left <= right < 0x7FFF_FFFF && size == right - left + 1
    requires i + 1 < Pow2(level)
    ensures ProbeWord(left, size, level, i) == Probe(left, size, Pow2(level), i)
  {
    MaskIsRemainder(size, level);
    ProbesRise(left, size, Pow2(level), i);
    Int32InRange(Probe(left, size, Pow2(level), i));
  }

  // The lemma the search depends on: the first probe out of range is the position after the range.
  lemma FirstOutOfRange(left: int, right: int, size: nat, level: nat, i: nat)
    requires 1 <= level && 0 <= left <= right < 0x7FFF_FFFF && size == right - left + 1
    requires i + 1 < Pow2(level)
    requires 0 < i ==> ProbeWord(left, size, level, i - 1) <= right
    requires right < ProbeWord(left, size, level, i)
    ensures ProbeWord(left, size, level, i) == right + 1
  {
    WordIsProbe(left, right, size, level, i);
    ProbesRise(left, size, Pow2(level), i);
    if 0 < i {
      WordIsProbe(left, right, size, level, i - 1);
      ProbesRise(left, size, Pow2(level), i - 1);
    }
  }

  // The key is not among the records outside [left, right]: smaller keys stand before it and larger ones behind.
  ghost predicate Outside(s: seq<Record>, key: int, left: int, right: int) {
    && 0 <= left <= right + 1 <= |s|
    && (forall i :: 0 <= i < left ==> s[i].key < key)
    && (forall i :: right < i < |s| ==> key < s[i].key)
  }

  lemma OutsideStarts(s: seq<Record>, key: int)
    ensures Outside(s, key, 0, |s| - 1)
  {
  }

  lemma RaiseLeft(s: seq<Record>, key: int, left: int, right: int, m: int)
    requires Sorted(s) && Outside(s, key, left, right) && left <= m <= right && s[m].key < key
    ensures Outside(s, key, m + 1, right)
  {
  }

  lemma LowerRight(s: seq<Record>, key: int, left: int, right: int, m: int)
    requires Sorted(s) && Outside(s, key, left, right) && left <= m <= right && key < s[m].key
    ensures Outside(s, key, left, m - 1)
  {
  }

  lemma OutsideEnds(s: seq<Record>, key: int, left: int, right: int)
    requires Outside(s, key, left, right) && right < left
    ensures NearestLess(s, key, right) && key !in Keys(s)
  {
  }

  lemma FoundIn(s: seq<Record>, key: int, i: int)
    requires 0 <= i < |s| && s[i].key == key
    ensures key in Keys(s)
  {
  }

  lemma NotFoundIn(s: seq<Record>, key: int, pos: int)
    requires NearestLess(s, key, pos)
    ensures key !in Keys(s)
  {
  }

  // ---------- the map a sorted table stands for ----------

  ghost function ValueOf(s: seq<Record>, key: int): int
    requires key in Keys(s)
  {
    var i :| 0 <= i < |s| && s[i].key == key;
    s[i].value
  }

  ghost function ToMap(s: seq<Record>): map<int, int> {
    map key | key in Keys(s) :: ValueOf(s, key)
  }

  lemma MapAt(s: seq<Record>, i: int)
    requires Sorted(s) && 0 <= i < |s|
    ensures s[i].key in ToMap(s) && ToMap(s)[s[i].key] == s[i].value
  {
  }

  // s with a record put behind position pos.
  function Inserted(s: seq<Record>, pos: int, r: Record): seq<Record>
    requires -1 <= pos < |s|
  {
    s[..pos + 1] + [r] + s[pos + 1..]
  }

  lemma InsertedSorted(s: seq<Record>, pos: int, r: Record)
    requires Sorted(s) && NearestLess(s, r.key, pos)
    ensures Sorted(Inserted(s, pos, r))
    ensures Inserted(s, pos, r)[pos + 1] == r
    ensures forall i :: 0 <= i < |s| ==> Inserted(s, pos, r)[if i <= pos then i else i + 1] == s[i]
    ensures Keys(Inserted(s, pos, r)) == Keys(s) + {r.key}
  {
    var t := Inserted(s, pos, r);
    forall i | 0 <= i < |s|
      ensures t[if i <= pos then i else i + 1] == s[i]
    {
    }
    forall i | 0 <= i < |t|
      ensures t[i] == if i <= pos then s[i] else if i == pos + 1 then r else s[i - 1]
    {
    }
  }

  // Putting a new key behind its nearest smaller one keeps the order and adds the key to the map.
  lemma InsertedMap(s: seq<Record>, pos: int, r: Record)
    requires Sorted(s) && NearestLess(s, r.key, pos)
    ensures Sorted(Inserted(s, pos, r))
    ensures ToMap(Inserted(s, pos, r)) == ToMap(s)[r.key := r.value]
  {
    var t := Inserted(s, pos, r);
    InsertedSorted(s, pos, r);
    forall key | key in Keys(s)
      ensures key != r.key && ToMap(t)[key] == ToMap(s)[key]
    {
      var i :| 0 <= i < |s| && s[i].key == key;
      MapAt(s, i);
      MapAt(t, if i <= pos then i else i + 1);
    }
    MapAt(t, pos + 1);
  }

  lemma SameKeys(s: seq<Record>, t: seq<Record>)
    requires |s| == |t| && forall j :: 0 <= j < |s| ==> t[j].key == s[j].key
    ensures Keys(t) == Keys(s)
  {
    forall key
      ensures key in Keys(t) <==> key in Keys(s)
    {
      if key in Keys(s) {
        var j :| 0 <= j < |s| && s[j].key == key;
        assert t[j].key == key;
      }
    }
  }

  // Giving a key that is present another value.
  lemma UpdatedSorted(s: seq<Record>, i: int, v: int)
    requires Sorted(s) && 0 <= i < |s|
    ensures Sorted(s[i := Record(s[i].key, v)])
  {
    assert forall j :: 0 <= j < |s| ==> s[i := Record(s[i].key, v)][j].key == s[j].key;
  }

  lemma UpdatedMap(s: seq<Record>, i: int, v: int)
    requires Sorted(s) && 0 <= i < |s|
    ensures var t := s[i := Record(s[i].key, v)];
      Sorted(t) && ToMap(t) == ToMap(s)[s[i].key := v]
  {
    var t := s[i := Record(s[i].key, v)];
    SameKeys(s, t);
    UpdatedSorted(s, i, v);
    forall key | key in Keys(s)
      ensures key in Keys(t) && ToMap(t)[key] == if key == s[i].key then v else ToMap(s)[key]
    {
      var j :| 0 <= j < |s| && s[j].key == key;
      MapAt(s, j);
      MapAt(t, j);
    }
  }

  // t is s with the key put behind position pos, with some value: what each of the three ways to add promises.
  ghost predicate Added(s: seq<Record>, pos: int, key: int, t: seq<Record>) {
    -1 <= pos < |s| && exists v :: t == Inserted(s, pos, Record(key, v))
  }

  lemma AddedIs(s: seq<Record>, pos: int, key: int, t: seq<Record>)
    requires -1 <= pos < |s| && |t| == |s| + 1 && t[pos + 1].key == key
    requires forall i :: 0 <= i <= pos ==> t[i] == s[i]
    requires forall i :: pos + 1 < i < |t| ==> t[i] == s[i - 1]
    ensures Added(s, pos, key, t)
  {
    assert t == Inserted(s, pos, Record(key, t[pos + 1].value));
  }

  lemma AddedMap(s: seq<Record>, pos: int, key: int, t: seq<Record>, value: int)
    requires Sorted(s) && NearestLess(s, key, pos) && Added(s, pos, key, t)
    ensures -1 <= pos && pos + 1 < |t| == |s| + 1 && t[pos + 1].key == key && key !in Keys(s)
    ensures Sorted(t[pos + 1 := Record(key, value)])
    ensures ToMap(t[pos + 1 := Record(key, value)]) == ToMap(s)[key := value]
  {
    NotFoundIn(s, key, pos);
    var v :| t == Inserted(s, pos, Record(key, v));
    assert t[pos + 1 := Record(key, value)] == Inserted(s, pos, Record(key, value));
    InsertedMap(s, pos, Record(key, value));
  }
}
