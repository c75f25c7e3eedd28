// What the batch operations of the sorted table amount to: merging in the absent keys, filtering out the given ones.
module SortBatch {
  import opened SortSearch

  // The records whose key is not among the given ones, in order: what a batch adds, and what a deletion leaves.
  function Except(kvs: seq<Record>, keys: set<int>): (others: seq<Record>)
    ensures |others| <= |kvs|
  {
    if kvs == [] then []
    else
      var last := kvs[|kvs| - 1];
      Except(kvs[..|kvs| - 1], keys) + (if last.key in keys then [] else [last])
  }

  lemma {:induction false} ExceptIs(kvs: seq<Record>, keys: set<int>)
    ensures forall r :: r in Except(kvs, keys) <==> r in kvs && r.key !in keys
  {
    if kvs != [] {
      ExceptIs(kvs[..|kvs| - 1], keys);
      assert kvs == kvs[..|kvs| - 1] + [kvs[|kvs| - 1]];
    }
  }

  lemma {:induction false} ExceptWeaklySorted(kvs: seq<Record>, keys: set<int>)
    requires WeaklySorted(kvs)
    ensures WeaklySorted(Except(kvs, keys))
  {
    if kvs != [] {
      var front := kvs[..|kvs| - 1];
      ExceptWeaklySorted(front, keys);
      ExceptIs(front, keys);
      assert forall r :: r in Except(front, keys) ==> r.key <= kvs[|kvs| - 1].key;
    }
  }

  lemma ExceptStep(kvs: seq<Record>, keys: set<int>, i: nat)
    requires i < |kvs|
    ensures Except(kvs[..i + 1], keys) ==
      Except(kvs[..i], keys) + if kvs[i].key in keys then [] else [kvs[i]]
  {
    assert kvs[..i + 1][..i] == kvs[..i];
  }

  // The state of the backward merge: the first r + 1 records are unread, the first k absent entries are still to
  // be placed, and `tail` holds all the others in order.
  ghost predicate Merging(s: seq<Record>, a: seq<Record>, r: int, k: nat, tail: seq<Record>) {
    && -1 <= r < |s| && k <= |a|
    && |tail| == (|s| - (r + 1)) + (|a| - k)
    && WeaklySorted(tail)
    && multiset(tail) == multiset(s[r + 1..]) + multiset(a[k..])
    && (forall i, j :: 0 <= i <= r && 0 <= j < |tail| ==> s[i].key <= tail[j].key)
    && (forall i, j :: 0 <= i < k && 0 <= j < |tail| ==> a[i].key <= tail[j].key)
  }

  lemma MergeStarts(s: seq<Record>, a: seq<Record>)
    ensures Merging(s, a, |s| - 1, |a|, [])
  {
  }

  lemma MergeOld(s: seq<Record>, a: seq<Record>, r: int, k: nat, tail: seq<Record>)
    requires Sorted(s) && WeaklySorted(a) && 0 <= r < |s| && 0 < k <= |a|
    requires Merging(s, a, r, k, tail) && a[k - 1].key < s[r].key
    ensures Merging(s, a, r - 1, k, [s[r]] + tail)
  {
    assert s[r..] == [s[r]] + s[r + 1..];
    ConsMultiset(s[r], tail);
    ConsMultiset(s[r], s[r + 1..]);
    ConsSorted(s[r], tail);
    var tail' := [s[r]] + tail;
    assert forall j :: 0 < j < |tail'| ==> tail'[j] == tail[j - 1];
  }

  lemma MergeNew(s: seq<Record>, a: seq<Record>, r: int, k: nat, tail: seq<Record>)
    requires Sorted(s) && WeaklySorted(a) && 0 < k <= |a|
    requires Merging(s, a, r, k, tail) && (r < 0 || s[r].key < a[k - 1].key)
    ensures Merging(s, a, r, k - 1, [a[k - 1]] + tail)
  {
    assert a[k - 1..] == [a[k - 1]] + a[k..];
    ConsMultiset(a[k - 1], tail);
    ConsMultiset(a[k - 1], a[k..]);
    ConsSorted(a[k - 1], tail);
    var tail' := [a[k - 1]] + tail;
    assert forall j :: 0 < j < |tail'| ==> tail'[j] == tail[j - 1];
  }

  lemma ConsMultiset(r: Record, list: seq<Record>)
    ensures multiset([r] + list) == multiset{r} + multiset(list)
  {
  }

  lemma ConsSorted(r: Record, list: seq<Record>)
    requires WeaklySorted(list) && forall j :: 0 <= j < |list| ==> r.key <= list[j].key
    ensures WeaklySorted([r] + list)
  {
  }

  // The outcome of the merge: in order, all records of both sides.
  ghost predicate Merges(s: seq<Record>, a: seq<Record>, t: seq<Record>) {
    WeaklySorted(t) && |t| == |s| + |a| && multiset(t) == multiset(s) + multiset(a)
  }

  lemma MergeEnds(s: seq<Record>, a: seq<Record>, r: int, tail: seq<Record>)
    requires Sorted(s) && Merging(s, a, r, 0, tail)
    ensures Merges(s, a, s[..r + 1] + tail)
  {
    assert s == s[..r + 1] + s[r + 1..];
    assert a[0..] == a;
    var t := s[..r + 1] + tail;
    forall i, j | 0 <= i < j < |t|
      ensures t[i].key <= t[j].key
    {
    }
  }

  lemma OccursTwice(t: seq<Record>, i: int, j: int)
    requires 0 <= i < j < |t| && t[i] == t[j]
    ensures 2 <= multiset(t)[t[i]]
  {
    assert t == t[..i] + [t[i]] + t[i + 1..j] + [t[j]] + t[j + 1..];
  }

  lemma {:induction false} OccursOnce(s: seq<Record>, r: Record)
    requires Sorted(s)
    ensures multiset(s)[r] == if r in s then 1 else 0
  {
    if r in s {
      var i :| 0 <= i < |s| && s[i] == r;
      assert s == s[..i] + [r] + s[i + 1..];
      assert r !in s[..i] && r !in s[i + 1..];
    }
  }

  // The merge is strictly sorted exactly when the absent entries have pairwise different keys.
  lemma MergeStrictIff(s: seq<Record>, a: seq<Record>, t: seq<Record>)
    requires Sorted(s) && WeaklySorted(a) && Merges(s, a, t)
    requires forall r :: r in a ==> r.key !in Keys(s)
    ensures Sorted(t) <==> Sorted(a)
  {
    if Sorted(a) {
      forall i, j | 0 <= i < j < |t|
        ensures t[i].key != t[j].key
      {
        StrictMerge(s, a, t, i, j);
      }
    }
    if Sorted(t) {
      forall i, j | 0 <= i < j < |a|
        ensures a[i].key != a[j].key
      {
        StrictPart(s, a, t, i, j);
      }
    }
  }

  lemma StrictMerge(s: seq<Record>, a: seq<Record>, t: seq<Record>, i: int, j: int)
    requires Sorted(s) && Sorted(a) && Merges(s, a, t) && 0 <= i < j < |t|
    requires forall r :: r in a ==> r.key !in Keys(s)
    ensures t[i].key != t[j].key
  {
    OccursOnce(s, t[i]);
    OccursOnce(a, t[i]);
    OccursOnce(s, t[j]);
    OccursOnce(a, t[j]);
    assert t[i] in multiset(t) && t[j] in multiset(t);
    if t[i] == t[j] {
      OccursTwice(t, i, j);
    }
  }

  lemma StrictPart(s: seq<Record>, a: seq<Record>, t: seq<Record>, i: int, j: int)
    requires Sorted(t) && Merges(s, a, t) && 0 <= i < j < |a|
    ensures a[i].key != a[j].key
  {
    OccursOnce(t, a[i]);
    OccursOnce(t, a[j]);
    assert a[i] in multiset(a) && a[j] in multiset(a);
    if a[i] == a[j] {
      OccursTwice(a, i, j);
    }
  }

  lemma MergedMembers(s: seq<Record>, a: seq<Record>, t: seq<Record>)
    requires Merges(s, a, t)
    ensures forall r :: r in t <==> r in s || r in a
  {
    forall r
      ensures r in t <==> r in s || r in a
    {
      assert r in t <==> r in multiset(t);
    }
  }

  lemma KeyOf(s: seq<Record>, key: int) returns (r: Record)
    requires Sorted(s) && key in Keys(s)
    ensures r in s && r.key == key && key in ToMap(s) && ToMap(s)[key] == r.value
  {
    var i :| 0 <= i < |s| && s[i].key == key;
    MapAt(s, i);
    r := s[i];
  }

  lemma MergedAt(s: seq<Record>, a: seq<Record>, t: seq<Record>, key: int)
    requires Sorted(s) && Sorted(a) && Sorted(t) && Merges(s, a, t)
    ensures key in Keys(t) <==> key in Keys(s) || key in Keys(a)
    ensures key in Keys(s) ==> ToMap(t)[key] == ToMap(s)[key]
    ensures key in Keys(a) ==> ToMap(t)[key] == ToMap(a)[key]
  {
    MergedMembers(s, a, t);
    hide Merges, Sorted, ToMap, ValueOf;
    if key in Keys(s) {
      var r := KeyOf(s, key);
      MapOf(t, r);
    }
    if key in Keys(a) {
      var r := KeyOf(a, key);
      MapOf(t, r);
    }
    if key in Keys(t) {
      var r := KeyOf(t, key);
      assert r in s || r in a;
    }
  }

  // A strict merge adds exactly the absent entries to the map and leaves the old ones as they were.
  lemma MergedMap(s: seq<Record>, a: seq<Record>, t: seq<Record>)
    requires Sorted(s) && Sorted(a) && Sorted(t) && Merges(s, a, t)
    ensures ToMap(t) == ToMap(s) + ToMap(a)
  {
    hide Merges, Sorted, Keys, ValueOf;
    forall key
      ensures key in Keys(t) <==> key in Keys(s) || key in Keys(a)
      ensures key in Keys(s) ==> ToMap(t)[key] == ToMap(s)[key]
      ensures key in Keys(a) ==> ToMap(t)[key] == ToMap(a)[key]
    {
      MergedAt(s, a, t, key);
    }
  }

  lemma MapOf(t: seq<Record>, r: Record)
    requires Sorted(t) && r in t
    ensures r.key in Keys(t) && r.key in ToMap(t) && ToMap(t)[r.key] == r.value
  {
    var i :| 0 <= i < |t| && t[i] == r;
    MapAt(t, i);
  }

  // ---------- deletion ----------

  lemma {:induction false} ExceptSorted(s: seq<Record>, keys: set<int>)
    requires Sorted(s)
    ensures Sorted(Except(s, keys))
  {
    if s != [] {
      var front := s[..|s| - 1];
      ExceptSorted(front, keys);
      ExceptIs(front, keys);
      assert forall r :: r in Except(front, keys) ==> r.key < s[|s| - 1].key;
    }
  }

  lemma ExceptMap(s: seq<Record>, keys: set<int>)
    requires Sorted(s)
    ensures ToMap(Except(s, keys)) == ToMap(s) - keys
  {
    var t := Except(s, keys);
    ExceptSorted(s, keys);
    ExceptIs(s, keys);
    forall key
      ensures key in ToMap(t) <==> key in ToMap(s) && key !in keys
      ensures key in ToMap(t) ==> ToMap(t)[key] == ToMap(s)[key]
    {
      if key in Keys(s) && key !in keys {
        var i :| 0 <= i < |s| && s[i].key == key;
        MapAt(s, i);
        MapOf(t, s[i]);
      }
      if key in Keys(t) {
        var i :| 0 <= i < |t| && t[i].key == key;
        assert t[i] in t;
        MapAt(t, i);
        MapOf(s, t[i]);
      }
    }
  }

  // As many records go as distinct given keys are present.
  lemma {:induction false} ExceptCount(s: seq<Record>, keys: set<int>)
    requires Sorted(s)
    ensures |Except(s, keys)| == |s| - |Keys(s) * keys|
  {
    if s != [] {
      var front, last := s[..|s| - 1], s[|s| - 1];
      ExceptCount(front, keys);
      assert forall i :: 0 <= i < |front| ==> front[i] == s[i];
      assert Keys(s) == Keys(front) + {last.key};
      assert last.key !in Keys(front);
      if last.key in keys {
        assert Keys(s) * keys == Keys(front) * keys + {last.key};
      } else {
        assert Keys(s) * keys == Keys(front) * keys;
      }
    } else {
      assert Keys(s) * keys == {};
    }
  }

  // ---------- the two passes, step by step ----------

  // kvIndex and positions describe the absent entries of the batch.
  ghost predicate Located(s: seq<Record>, kvs: seq<Record>, kvIndex: seq<nat>, positions: seq<int>) {
    var a := Except(kvs, Keys(s));
    && |kvIndex| == |positions| == |a|
    && forall j :: 0 <= j < |a| ==>
         kvIndex[j] < |kvs| && kvs[kvIndex[j]] == a[j] && NearestLess(s, a[j].key, positions[j])
  }

  lemma LocatedNone(s: seq<Record>, kvs: seq<Record>)
    ensures Located(s, kvs[..0], [], [])
  {
  }

  lemma LocatedStep(s: seq<Record>, kvs: seq<Record>, i: nat, kvIndex: seq<nat>, positions: seq<int>, pos: int)
    requires i < |kvs| && Located(s, kvs[..i], kvIndex, positions)
    ensures kvs[i].key in Keys(s) ==> Located(s, kvs[..i + 1], kvIndex, positions)
    ensures kvs[i].key !in Keys(s) && NearestLess(s, kvs[i].key, pos) ==>
      Located(s, kvs[..i + 1], kvIndex + [i], positions + [pos])
  {
    ExceptStep(kvs, Keys(s), i);
  }

  lemma LocatedLength(s: seq<Record>, kvs: seq<Record>, kvIndex: seq<nat>, positions: seq<int>)
    requires Located(s, kvs, kvIndex, positions)
    ensures |kvIndex| == |positions| == |Except(kvs, Keys(s))|
  {
  }

  lemma LocatedAt(s: seq<Record>, kvs: seq<Record>, kvIndex: seq<nat>, positions: seq<int>, j: nat)
    requires Located(s, kvs, kvIndex, positions) && j < |positions|
    ensures |kvIndex| == |positions| == |Except(kvs, Keys(s))|
    ensures kvIndex[j] < |kvs| && kvs[kvIndex[j]] == Except(kvs, Keys(s))[j]
    ensures -1 <= positions[j] < |s|
    ensures forall r :: 0 <= r <= positions[j] ==> s[r].key < Except(kvs, Keys(s))[j].key
    ensures forall r :: positions[j] < r < |s| ==> Except(kvs, Keys(s))[j].key < s[r].key
  {
  }

  lemma BatchIsSorted(s: seq<Record>, kvs: seq<Record>)
    requires WeaklySorted(kvs)
    ensures WeaklySorted(Except(kvs, Keys(s)))
    ensures forall r :: r in Except(kvs, Keys(s)) ==> r.key !in Keys(s)
  {
    ExceptWeaklySorted(kvs, Keys(s));
    ExceptIs(kvs, Keys(s));
  }

  lemma MergeSettles(s: seq<Record>, a: seq<Record>, t: seq<Record>)
    requires Sorted(s) && WeaklySorted(a) && Merges(s, a, t)
    requires forall r :: r in a ==> r.key !in Keys(s)
    ensures Sorted(t) <==> Sorted(a)
    ensures Sorted(t) ==> ToMap(t) == ToMap(s) + ToMap(a)
  {
    MergeStrictIff(s, a, t);
    if Sorted(t) {
      MergedMap(s, a, t);
    }
  }

  // The first `read` records have been decided, the kept ones stand in front; the first `k` batch keys are all
  // smaller than the records still to be read.
  ghost predicate Compacting(s: seq<Record>, kvs: seq<Record>, read: nat, write: nat, k: nat, kept: seq<Record>) {
    && read <= |s| && k <= |kvs| && write == |kept|
    && kept == Except(s[..read], Keys(kvs))
    && (forall j, i :: 0 <= j < k && read <= i < |s| ==> kvs[j].key < s[i].key)
  }

  lemma CompactStarts(s: seq<Record>, kvs: seq<Record>)
    ensures Compacting(s, kvs, 0, 0, 0, [])
  {
  }

  lemma CompactStep(s: seq<Record>, kvs: seq<Record>, read: nat, write: nat, k: nat, kept: seq<Record>)
    requires Sorted(s) && WeaklySorted(kvs) && Compacting(s, kvs, read, write, k, kept) && read < |s|
    ensures k < |kvs| && s[read].key == kvs[k].key ==> Compacting(s, kvs, read + 1, write, k + 1, kept)
    ensures k < |kvs| && kvs[k].key < s[read].key ==> Compacting(s, kvs, read, write, k + 1, kept)
    ensures k == |kvs| || (k < |kvs| && s[read].key < kvs[k].key) ==>
      Compacting(s, kvs, read + 1, write + 1, k, kept + [s[read]])
  {
    ExceptStep(s, Keys(kvs), read);
    if k < |kvs| && s[read].key == kvs[k].key {
      assert s[read].key in Keys(kvs);
    } else if k == |kvs| || s[read].key < kvs[k].key {
      assert s[read].key !in Keys(kvs);
    }
  }

  lemma CompactEnds(s: seq<Record>, kvs: seq<Record>, read: nat, write: nat, k: nat, kept: seq<Record>)
    requires Sorted(s) && Compacting(s, kvs, read, write, k, kept) && read == |s|
    ensures kept == Except(s, Keys(kvs)) && Sorted(kept) && |kept| == write
    ensures write == |s| - |Keys(s) * Keys(kvs)|
    ensures ToMap(kept) == ToMap(s) - Keys(kvs)
  {
    assert s[..read] == s;
    ExceptSorted(s, Keys(kvs));
    ExceptCount(s, Keys(kvs));
    ExceptMap(s, Keys(kvs));
  }
}
