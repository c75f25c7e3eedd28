// The sorted-array index: search with several probes a round, insertion in place or into a larger array,
// and the batch operations that merge and compact in place.
module SortTables {
  import opened Bits
  import opened SortSearch
  import opened SortBatch
  import opened SortOrder
  import opened SortKeys

  const MAX_BINARY_SEARCH_LEVEL: nat := 2

  class SortTable {
    var first: array<Record>
    var usedSize: nat
    var totalSize: nat
    var exclusive: bool
    var level: nat

    ghost predicate Valid()
      reads this, first
    {
      && usedSize <= totalSize == first.Length
      && 1 <= level
      && Sorted(first[..usedSize])
    }

    ghost function Records(): (s: seq<Record>)
      requires Valid()
      reads this, first
      ensures |s| == usedSize && Sorted(s)
    {
      first[..usedSize]
    }

    constructor InitEmpty(initRecordNum: nat, exclusive: bool)
      ensures Valid() && fresh(first) && Records() == [] && totalSize == initRecordNum
      ensures this.exclusive == exclusive && level == 2
    {
      first := new Record[initRecordNum](_ => Record(0, 0));
      usedSize, totalSize := 0, initRecordNum;
      this.exclusive, level := exclusive, MAX_BINARY_SEARCH_LEVEL;
    }

    // Returns the index of the record with the key, or -1 and the position of the nearest smaller key.
    method SimdBinarySearch(key: int) returns (found: int, pos: int)
      requires Valid() && usedSize < 0x8000_0000
      ensures found == -1 || (0 <= found < usedSize && Records()[found].key == key)
      ensures found == -1 <==> key !in Keys(Records())
      ensures found == -1 ==> NearestLess(Records(), key, pos)
    {
      hide *;
      ghost var s := Opened();
      OutsideStarts(s, key);
      if usedSize <= 0 {
        OutsideEnds(s, key, 0, -1);
        return -1, -1;
      }
      if first[0].key == key {
        FoundIn(s, key, 0);
        return 0, -1;
      }
      if first[usedSize - 1].key == key {
        FoundIn(s, key, usedSize - 1);
        return usedSize - 1, -1;
      }
      var ways := Pow2(level);
      var left, right, size := 0, usedSize - 1, usedSize;
      while left <= right
        invariant 0 <= left <= right + 1 <= usedSize && size == right - left + 1
        invariant Outside(s, key, left, right)
        decreases right - left
      {
        var mid, valid := ProbeRange(left, right, size);
        var i := 0;
        while i < valid && first[mid[i]].key <= key
          invariant 0 <= i <= valid
          invariant 0 < i ==> s[mid[i - 1]].key <= key
        {
          i := i + 1;
        }
        if 0 < i && first[mid[i - 1]].key == key {
          FoundIn(s, key, mid[i - 1]);
          return mid[i - 1], -1;
        }
        if 0 < i {
          RaiseLeft(s, key, left, right, mid[i - 1]);
        }
        if i < valid {
          LowerRight(s, key, if 0 < i then mid[i - 1] + 1 else left, right, mid[i]);
        }
        if ways - 1 <= i {
          left := mid[ways - 2] + 1;
        } else if i <= 0 {
          right := mid[0] - 1;
        } else {
          left := mid[i - 1] + 1;
          right := mid[i] - 1;
        }
        size := right - left + 1;
      }
      OutsideEnds(s, key, left, right);
      return -1, right;
    }

    // The probe positions of one round, computed until one leaves the range, and how many stay inside.
    method ProbeRange(left: int, right: int, size: nat) returns (mid: array<int>, valid: nat)
      requires Valid() && 0 <= left <= right < usedSize < 0x8000_0000 && size == right - left + 1
      ensures fresh(mid) && mid.Length == Pow2(level) - 1 && 1 <= valid <= mid.Length
      ensures forall j :: 0 <= j < valid ==> left <= mid[j] <= right
      ensures forall j :: 0 < j < valid ==> mid[j - 1] < mid[j]
      ensures valid < mid.Length ==> mid[valid] == right + 1
    {
      var midCount := Pow2(level) - 1;
      mid := new int[midCount];
      valid := 0;
      while valid < midCount
        invariant 0 <= valid <= midCount
        invariant forall j :: 0 <= j < valid ==> mid[j] == ProbeWord(left, size, level, j) && left <= mid[j] <= right
        invariant forall j :: 0 < j < valid ==> mid[j - 1] < mid[j]
        invariant valid == 0 ==> 0 < midCount
      {
        ProbeRound(left, right, size, level, valid);
        mid[valid] := ProbeWord(left, size, level, valid);
        if right < mid[valid] {
          FirstOutOfRange(left, right, size, level, valid);
          break;
        }
        valid := valid + 1;
      }
    }

    // Shifts the records behind `pos` up by one and puts the key in the gap; the value there stays to be set.
    method DirectlyAdd(pos: int, key: int) returns (index: nat)
      requires usedSize < totalSize == first.Length && -1 <= pos < usedSize
      modifies first, this`usedSize
      ensures index == pos + 1 && usedSize == old(usedSize) + 1
      ensures Added(old(first[..usedSize]), pos, key, first[..usedSize])
    {
      hide *;
      ghost var s := first[..usedSize];
      var i := usedSize - 1;
      while i > pos
        invariant pos <= i < usedSize == |s|
        invariant forall j :: 0 <= j <= i ==> first[j] == s[j]
        invariant forall j :: i + 2 <= j <= usedSize ==> first[j] == s[j - 1]
      {
        first[i + 1] := first[i];
        i := i - 1;
      }
      first[pos + 1] := Record(key, first[pos + 1].value);
      usedSize := usedSize + 1;
      AddedIs(s, pos, key, first[..usedSize]);
      return pos + 1;
    }

    // Growth in place: the pool extends the table's own memory by the current capacity.
    method ExpandAdd(pos: int, key: int) returns (index: nat)
      requires usedSize == totalSize == first.Length && 0 < totalSize && -1 <= pos < usedSize
      modifies this, first
      ensures index == pos + 1 && usedSize == old(usedSize) + 1
      ensures totalSize == first.Length == 2 * old(totalSize)
      ensures fresh(first) && exclusive == old(exclusive) && level == old(level)
      ensures Added(old(first[..usedSize]), pos, key, first[..usedSize])
    {
      ghost var s := first[..usedSize];
      var larger := new Record[2 * totalSize](_ => Record(0, 0));
      forall i | 0 <= i < usedSize {
        larger[i] := first[i];
      }
      first, totalSize := larger, 2 * totalSize;
      assert first[..usedSize] == s;
      index := DirectlyAdd(pos, key);
    }

    // Growth by copying: a new area of twice the size in bytes, header included, holds 2 * capacity + 1 records.
    method AllocAdd(pos: int, key: int) returns (index: nat)
      requires usedSize == totalSize == first.Length && -1 <= pos < usedSize
      modifies this
      ensures index == pos + 1 && usedSize == old(usedSize) + 1
      ensures totalSize == first.Length == 2 * old(totalSize) + 1
      ensures fresh(first) && exclusive == old(exclusive) && level == old(level)
      ensures Added(old(first[..usedSize]), pos, key, first[..usedSize])
    {
      hide *;
      ghost var s := first[..usedSize];
      var oldSize := totalSize * 16 + 16;
      var newSize := oldSize * 2;
      var newFirst := new Record[(newSize - 16) / 16](_ => Record(0, 0));
      var i := 0;
      while i <= pos
        invariant 0 <= i <= pos + 1 && unchanged(this) && unchanged(first)
        invariant forall j :: 0 <= j < i ==> newFirst[j] == s[j]
      {
        newFirst[i] := first[i];
        i := i + 1;
      }
      newFirst[i] := Record(key, newFirst[i].value);
      i := i + 1;
      while i < usedSize + 1
        invariant pos + 2 <= i <= usedSize + 1 && unchanged(this) && unchanged(first)
        invariant forall j :: 0 <= j <= pos ==> newFirst[j] == s[j]
        invariant newFirst[pos + 1].key == key
        invariant forall j :: pos + 2 <= j < i ==> newFirst[j] == s[j - 1]
      {
        newFirst[i] := first[i - 1];
        i := i + 1;
      }
      AddedIs(s, pos, key, newFirst[..usedSize + 1]);
      first, totalSize, usedSize := newFirst, (newSize - 16) / 16, usedSize + 1;
      return pos + 1;
    }

    // The room an insertion of a new key finds or makes: a full exclusive table can only grow if it has a record.
    predicate CanAdd()
      reads this
    {
      usedSize < totalSize || !exclusive || 0 < totalSize
    }

    function CapacityAfterAdd(): nat
      reads this
    {
      if usedSize < totalSize then totalSize else if exclusive then 2 * totalSize else 2 * totalSize + 1
    }

    // A key that is there gets the new value; an absent one is added where there is room, or the table grows for it.
    method Insert(key: int, value: int)
      requires Valid() && usedSize < 0x8000_0000 && (key !in Keys(Records()) ==> CanAdd())
      modifies this, first
      ensures Valid() && exclusive == old(exclusive) && (first == old(first) || fresh(first))
      ensures ToMap(Records()) == ToMap(old(Records()))[key := value]
      ensures usedSize == if key in Keys(old(Records())) then old(usedSize) else old(usedSize) + 1
      ensures totalSize == if key in Keys(old(Records())) then old(totalSize) else old(CapacityAfterAdd())
    {
      hide *;
      ghost var s := Opened();
      var index, pos := SimdBinarySearch(key);
      if index != -1 {
        UpdatedMap(s, index, value);
        FoundIn(s, key, index);
        first[index] := Record(first[index].key, value);
        assert first[..usedSize] == s[index := Record(key, value)];
        Closed();
        return;
      }
      RoomIs();
      if totalSize > usedSize {
        index := DirectlyAdd(pos, key);
      } else if exclusive {
        index := ExpandAdd(pos, key);
      } else {
        index := AllocAdd(pos, key);
      }
      ghost var t := first[..usedSize];
      AddedMap(s, pos, key, t, value);
      first[index] := Record(first[index].key, value);
      assert first[..usedSize] == t[pos + 1 := Record(key, value)];
      Closed();
    }

    ghost function Opened(): (s: seq<Record>)
      requires Valid()
      reads this, first
      ensures s == Records() && |s| == usedSize <= totalSize == first.Length
      ensures s == first[..usedSize] && Sorted(s) && 1 <= level
    {
      Records()
    }

    lemma Closed()
      requires usedSize <= totalSize == first.Length && 1 <= level && Sorted(first[..usedSize])
      ensures Valid() && Records() == first[..usedSize]
    {
    }

    lemma RoomIs()
      requires CanAdd()
      ensures usedSize < totalSize ==> CapacityAfterAdd() == totalSize
      ensures totalSize <= usedSize && exclusive ==> CapacityAfterAdd() == 2 * totalSize && 0 < totalSize
      ensures totalSize <= usedSize && !exclusive ==> CapacityAfterAdd() == 2 * totalSize + 1
    {
    }

    // Insert as its callers see it: a payload and a null key are refused, anything else goes to its hash key.
    method InsertPair(hash: Hash, key: Key, value: int, payloadEmpty: bool) returns (ok: bool)
      requires Valid() && usedSize < 0x8000_0000
      requires payloadEmpty && key.Key? && HashKey(hash, key.bytes) !in Keys(Records()) ==> CanAdd()
      modifies this, first
      ensures Valid() && exclusive == old(exclusive) && (first == old(first) || fresh(first))
      ensures ok <==> payloadEmpty && key.Key?
      ensures !ok ==> Records() == old(Records()) && usedSize == old(usedSize) && totalSize == old(totalSize)
      ensures ok ==>
        && ToMap(Records()) == old(ToMap(Records()))[HashKey(hash, key.bytes) := value]
        && (HashKey(hash, key.bytes) in old(Keys(Records())) ==> totalSize == old(totalSize))
        && (HashKey(hash, key.bytes) !in old(Keys(Records())) ==> totalSize == old(CapacityAfterAdd()))
    {
      if !payloadEmpty || key.NullKey? {
        return false;
      }
      Insert(HashKey(hash, key.bytes), value);
      return true;
    }

    method Search(key: int) returns (found: bool, value: int)
      requires Valid() && usedSize < 0x8000_0000
      ensures found <==> key in ToMap(Records())
      ensures value == if found then ToMap(Records())[key] else -1
    {
      var index, _ := SimdBinarySearch(key);
      if index == -1 {
        return false, -1;
      }
      MapAt(Records(), index);
      return true, first[index].value;
    }

    method SearchPair(hash: Hash, key: Key) returns (found: bool, value: int)
      requires Valid() && usedSize < 0x8000_0000
      ensures found <==> key.Key? && HashKey(hash, key.bytes) in ToMap(Records())
      ensures value == if found then ToMap(Records())[HashKey(hash, key.bytes)] else -1
    {
      if key.NullKey? {
        return false, -1;
      }
      found, value := Search(HashKey(hash, key.bytes));
    }

    // The batch entries whose keys are absent, by index into the batch, and where each belongs.
    method LocateAbsent(kvs: seq<Record>) returns (kvIndex: seq<nat>, positions: seq<int>)
      requires Valid() && usedSize < 0x8000_0000
      ensures Located(Records(), kvs, kvIndex, positions)
    {
      hide *;
      ghost var s := Opened();
      kvIndex, positions := [], [];
      var i := 0;
      LocatedNone(s, kvs);
      while i < |kvs|
        invariant 0 <= i <= |kvs| && Located(s, kvs[..i], kvIndex, positions)
      {
        var found, pos := SimdBinarySearch(kvs[i].key);
        LocatedStep(s, kvs, i, kvIndex, positions, pos);
        if found == -1 {
          kvIndex, positions := kvIndex + [i], positions + [pos];
        }
        i := i + 1;
      }
      assert kvs[..i] == kvs;
    }

    // Merges the entries with absent keys into the table, from the back, when they fit; `kvs` is the batch in key
    // order. A full exclusive table would have to grow here, which is not modelled.
    method MergeBatch(kvs: seq<Record>) returns (ok: bool)
      requires Valid() && usedSize < 0x8000_0000 && WeaklySorted(kvs)
      requires exclusive ==> usedSize + |Except(kvs, Keys(Records()))| <= totalSize
      modifies first, this`usedSize
      ensures ok <==> old(usedSize) + |Except(kvs, Keys(old(Records())))| <= totalSize
      ensures !ok ==> Valid() && Records() == old(Records())
      ensures usedSize <= first.Length
      ensures ok ==> Merges(old(Records()), Except(kvs, Keys(old(Records()))), first[..usedSize])
      ensures ok ==> (Valid() <==> Sorted(Except(kvs, Keys(old(Records())))))
      ensures ok && Valid() ==>
        ToMap(Records()) == ToMap(old(Records())) + ToMap(Except(kvs, Keys(old(Records()))))
    {
      hide *;
      ghost var s := Opened();
      var kvIndex, positions := LocateAbsent(kvs);
      ghost var a := Except(kvs, Keys(s));
      LocatedLength(s, kvs, kvIndex, positions);
      BatchIsSorted(s, kvs);
      var insertCount := |positions|;
      var k := insertCount;
      var r := usedSize - 1;
      var w := usedSize + insertCount - 1;
      if totalSize < usedSize + insertCount {
        return false;
      }
      ghost var tail := [];
      MergeStarts(s, a);
      while 0 < k
        invariant 0 <= k <= insertCount && -1 <= r < usedSize && w - r == k
        invariant unchanged(this) && Merging(s, a, r, k, tail) && |tail| == usedSize + insertCount - 1 - w
        invariant forall i :: 0 <= i <= r ==> first[i] == s[i]
        invariant forall i :: w < i < usedSize + insertCount ==> first[i] == tail[i - w - 1]
        decreases r + 1 + k
      {
        LocatedAt(s, kvs, kvIndex, positions, k - 1);
        if r >= 0 && r > positions[k - 1] {
          MergeOld(s, a, r, k, tail);
          first[w] := first[r];
          tail := [s[r]] + tail;
          r := r - 1;
        } else {
          MergeNew(s, a, r, k, tail);
          first[w] := Record(kvs[kvIndex[k - 1]].key, kvs[kvIndex[k - 1]].value);
          tail := [a[k - 1]] + tail;
          k := k - 1;
        }
        w := w - 1;
      }
      MergeEnds(s, a, r, tail);
      usedSize := usedSize + insertCount;
      assert first[..usedSize] == s[..r + 1] + tail;
      MergeSettles(s, a, first[..usedSize]);
      ValidIff();
      return true;
    }

    // Inserts the entries with absent keys, present ones are left as they are. An unsorted batch is sorted first.
    method BatchInsert(kvs: seq<Record>, alreadySorted: bool) returns (ok: bool)
      requires Valid() && usedSize < 0x8000_0000 && (alreadySorted ==> WeaklySorted(kvs))
      requires exclusive ==> usedSize + |Except(kvs, Keys(Records()))| <= totalSize
      modifies first, this`usedSize
      ensures ok <==> old(usedSize) + |Except(kvs, Keys(old(Records())))| <= totalSize
      ensures !ok ==> Valid() && Records() == old(Records())
      ensures usedSize <= first.Length
      ensures ok ==> Merges(old(Records()), Except(kvs, Keys(old(Records()))), first[..usedSize])
      ensures ok ==> (Valid() <==> DistinctKeys(Except(kvs, Keys(old(Records())))))
      ensures ok && Valid() ==>
        ToMap(Records()) == ToMap(old(Records())) + ToMap(Except(kvs, Keys(old(Records()))))
    {
      hide *;
      ghost var s := Opened();
      var local := kvs;
      SameOrder(kvs);
      if !alreadySorted {
        local := SortByKey(kvs);
      }
      SameBatch(kvs, local, Keys(s));
      ok := MergeBatch(local);
      if ok {
        SameMerge(s, Except(local, Keys(s)), Except(kvs, Keys(s)), first[..usedSize]);
      }
    }

    lemma ValidIff()
      requires usedSize <= totalSize == first.Length && 1 <= level
      ensures Valid() <==> Sorted(first[..usedSize])
      ensures Valid() ==> Records() == first[..usedSize]
    {
    }

    // Deletes the records with the given keys by compacting the table in one pass; `kvs` is the batch in key order.
    method CompactBatch(kvs: seq<Record>)
      requires Valid() && WeaklySorted(kvs)
      modifies first, this`usedSize
      ensures Valid() && Records() == Except(old(Records()), Keys(kvs))
      ensures usedSize == old(usedSize) - |Keys(old(Records())) * Keys(kvs)|
      ensures ToMap(Records()) == ToMap(old(Records())) - Keys(kvs)
    {
      hide *;
      ghost var s := Opened();
      var readPos, writePos, kvIndex, deleteCount := 0, 0, 0, 0;
      CompactStarts(s, kvs);
      while readPos < usedSize
        invariant 0 <= writePos <= readPos <= usedSize && kvIndex <= |kvs| && deleteCount == readPos - writePos
        invariant unchanged(this) && Compacting(s, kvs, readPos, writePos, kvIndex, first[..writePos])
        invariant forall i :: readPos <= i < usedSize ==> first[i] == s[i]
        decreases usedSize - readPos + |kvs| - kvIndex
      {
        CompactStep(s, kvs, readPos, writePos, kvIndex, first[..writePos]);
        if kvIndex < |kvs| && first[readPos].key == kvs[kvIndex].key {
          kvIndex := kvIndex + 1;
          deleteCount := deleteCount + 1;
          readPos := readPos + 1;
        } else if kvIndex < |kvs| && kvs[kvIndex].key < first[readPos].key {
          kvIndex := kvIndex + 1;
        } else {
          ghost var written := first[..writePos];
          if writePos != readPos {
            first[writePos] := first[readPos];
          }
          assert first[..writePos + 1] == written + [s[readPos]];
          writePos := writePos + 1;
          readPos := readPos + 1;
        }
      }
      CompactEnds(s, kvs, readPos, writePos, kvIndex, first[..writePos]);
      usedSize := usedSize - deleteCount;
      Closed();
    }

    // Deletes the records with the given keys. An unsorted batch is sorted first.
    method BatchDelete(kvs: seq<Record>, alreadySorted: bool)
      requires Valid() && (alreadySorted ==> WeaklySorted(kvs))
      modifies first, this`usedSize
      ensures Valid() && Records() == Except(old(Records()), Keys(kvs))
      ensures usedSize == old(usedSize) - |Keys(old(Records())) * Keys(kvs)|
      ensures ToMap(Records()) == ToMap(old(Records())) - Keys(kvs)
    {
      hide *;
      var local := kvs;
      SameOrder(kvs);
      if !alreadySorted {
        local := SortByKey(kvs);
      }
      SameBatch(kvs, local, {});
      CompactBatch(local);
    }
  }

  // A batch with a repeated absent key: both entries go in, and the table is no longer strictly sorted.
  method RepeatedKeyRun(key: int, v: int, w: int) returns (table: SortTable, ok: bool)
    ensures fresh(table) && ok && !table.Valid()
    ensures table.usedSize == 2 && table.usedSize <= table.first.Length
    ensures Merges([], [Record(key, v), Record(key, w)], table.first[..table.usedSize])
  {
    var kvs := [Record(key, v), Record(key, w)];
    table := new SortTable.InitEmpty(2, false);
    assert Keys(table.Records()) == {};
    NothingExcept(kvs);
    ok := table.BatchInsert(kvs, false);
    assert kvs[0].key == kvs[1].key;
  }

  lemma {:induction false} NothingExcept(s: seq<Record>)
    ensures Except(s, {}) == s
  {
    if s != [] {
      NothingExcept(s[..|s| - 1]);
      assert s == s[..|s| - 1] + [s[|s| - 1]];
    }
  }
}
