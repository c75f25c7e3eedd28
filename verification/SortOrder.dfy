// Putting a batch in key order, and what does not depend on the order it came in.
module SortOrder {
  import opened SortSearch
  import opened SortBatch

  predicate DistinctKeys(s: seq<Record>) {
    forall i, j :: 0 <= i < j < |s| ==> s[i].key != s[j].key
  }

  predicate Reorders(s: seq<Record>, t: seq<Record>) {
    multiset(s) == multiset(t)
  }

  // Where a record goes in a batch in key order: before the first larger key.
  function PlaceOf(s: seq<Record>, key: int): (i: nat)
    ensures i <= |s|
    ensures forall j :: 0 <= j < i ==> s[j].key <= key
    ensures i < |s| ==> key < s[i].key
  {
    if s == [] || key < s[0].key then 0 else 1 + PlaceOf(s[1..], key)
  }

  lemma PlacedInOrder(s: seq<Record>, r: Record)
    requires WeaklySorted(s)
    ensures var i := PlaceOf(s, r.key); WeaklySorted(s[..i] + [r] + s[i..])
  {
    hide PlaceOf;
    var i := PlaceOf(s, r.key);
    var t := s[..i] + [r] + s[i..];
    assert forall j :: i <= j < |s| ==> r.key <= s[j].key;
    assert forall j :: 0 <= j < |t| ==> t[j] == if j < i then s[j] else if j == i then r else s[j - 1];
  }

  lemma PlacedOnce(s: seq<Record>, i: nat, r: Record, done: seq<Record>)
    requires i <= |s| && Reorders(s, done)
    ensures Reorders(s[..i] + [r] + s[i..], done + [r])
  {
    assert s == s[..i] + s[i..];
    assert multiset(s) == multiset(s[..i]) + multiset(s[i..]);
  }

  lemma NothingToSort()
    ensures WeaklySorted([]) && Reorders([], [])
  {
  }

  // The library's sort: some arrangement of the batch in key order.
  method SortByKey(kvs: seq<Record>) returns (local: seq<Record>)
    ensures WeaklySorted(local) && Reorders(local, kvs)
  {
    hide WeaklySorted, Reorders;
    NothingToSort();
    local := [];
    for k := 0 to |kvs|
      invariant WeaklySorted(local) && Reorders(local, kvs[..k])
    {
      var i := PlaceOf(local, kvs[k].key);
      PlacedInOrder(local, kvs[k]);
      PlacedOnce(local, i, kvs[k], kvs[..k]);
      local := local[..i] + [kvs[k]] + local[i..];
      assert kvs[..k + 1] == kvs[..k] + [kvs[k]];
    }
    assert kvs[..|kvs|] == kvs;
  }

  // ---------- what the order does not change ----------

  lemma SameMembers(s: seq<Record>, t: seq<Record>)
    requires Reorders(s, t)
    ensures |s| == |t| && Keys(s) == Keys(t) && forall r :: r in s <==> r in t
  {
    assert |s| == |multiset(s)| && |t| == |multiset(t)|;
    forall r
      ensures r in s <==> r in t
    {
      assert r in multiset(s) <==> r in multiset(t);
    }
    KeysWithin(s, t);
    KeysWithin(t, s);
  }

  lemma KeysWithin(s: seq<Record>, t: seq<Record>)
    requires forall r :: r in s ==> r in t
    ensures Keys(s) <= Keys(t)
  {
    forall i | 0 <= i < |s|
      ensures s[i].key in Keys(t)
    {
      assert s[i] in t;
      var j :| 0 <= j < |t| && t[j] == s[i];
    }
  }

  lemma {:induction false} ExceptCounts(s: seq<Record>, keys: set<int>, r: Record)
    ensures multiset(Except(s, keys))[r] == if r.key in keys then 0 else multiset(s)[r]
  {
    if s != [] {
      var front, last := s[..|s| - 1], s[|s| - 1];
      ExceptCounts(front, keys, r);
      assert s == front + [last];
    }
  }

  lemma ExceptReorders(s: seq<Record>, t: seq<Record>, keys: set<int>)
    requires Reorders(s, t)
    ensures Reorders(Except(s, keys), Except(t, keys))
  {
    forall r
      ensures multiset(Except(s, keys))[r] == multiset(Except(t, keys))[r]
    {
      ExceptCounts(s, keys, r);
      ExceptCounts(t, keys, r);
    }
  }

  lemma DistinctCount(s: seq<Record>, a: int)
    requires DistinctKeys(s) && 0 <= a < |s|
    ensures multiset(s)[s[a]] == 1
  {
    assert s == s[..a] + [s[a]] + s[a + 1..];
    assert s[a] !in s[..a] && s[a] !in s[a + 1..];
  }

  lemma DistinctOnce(s: seq<Record>, i: int, j: int, t: seq<Record>)
    requires DistinctKeys(s) && Reorders(s, t) && 0 <= i < j < |t|
    ensures t[i].key != t[j].key
  {
    SameMembers(s, t);
    if t[i].key == t[j].key {
      assert t[i] in s && t[j] in s;
      var a :| 0 <= a < |s| && s[a] == t[i];
      var b :| 0 <= b < |s| && s[b] == t[j];
      assert a == b;
      DistinctCount(s, a);
      OccursTwice(t, i, j);
    }
  }

  lemma DistinctReorders(s: seq<Record>, t: seq<Record>)
    requires Reorders(s, t)
    ensures DistinctKeys(s) <==> DistinctKeys(t)
  {
    hide Reorders;
    if DistinctKeys(s) {
      forall i, j | 0 <= i < j < |t|
        ensures t[i].key != t[j].key
      {
        DistinctOnce(s, i, j, t);
      }
    }
    if DistinctKeys(t) {
      ReordersBack(s, t);
      forall i, j | 0 <= i < j < |s|
        ensures s[i].key != s[j].key
      {
        DistinctOnce(t, i, j, s);
      }
    }
  }

  lemma ReordersBack(s: seq<Record>, t: seq<Record>)
    requires Reorders(s, t)
    ensures Reorders(t, s)
  {
  }

  lemma DistinctAt(s: seq<Record>, i: int)
    requires DistinctKeys(s) && 0 <= i < |s|
    ensures s[i].key in Keys(s) && ToMap(s)[s[i].key] == s[i].value
  {
  }

  lemma SameMap(s: seq<Record>, t: seq<Record>)
    requires Reorders(s, t) && DistinctKeys(s)
    ensures ToMap(s) == ToMap(t)
  {
    SameMembers(s, t);
    DistinctReorders(s, t);
    hide Reorders, DistinctKeys, ValueOf;
    forall key | key in Keys(s)
      ensures ToMap(s)[key] == ToMap(t)[key]
    {
      var i :| 0 <= i < |s| && s[i].key == key;
      assert s[i] in t;
      var j :| 0 <= j < |t| && t[j] == s[i];
      DistinctAt(s, i);
      DistinctAt(t, j);
    }
  }

  lemma StrictIffDistinct(s: seq<Record>)
    requires WeaklySorted(s)
    ensures Sorted(s) <==> DistinctKeys(s)
  {
  }

  // A batch in any order against the same batch in key order.
  lemma SameBatch(kvs: seq<Record>, local: seq<Record>, keys: set<int>)
    requires Reorders(local, kvs) && WeaklySorted(local)
    ensures Keys(local) == Keys(kvs)
    ensures |Except(local, keys)| == |Except(kvs, keys)| && Reorders(Except(local, keys), Except(kvs, keys))
    ensures Sorted(Except(local, keys)) <==> DistinctKeys(Except(kvs, keys))
    ensures DistinctKeys(Except(kvs, keys)) ==> ToMap(Except(local, keys)) == ToMap(Except(kvs, keys))
  {
    hide Reorders, DistinctKeys, ToMap, Keys, Except;
    SameMembers(local, kvs);
    ExceptReorders(local, kvs, keys);
    SameMembers(Except(local, keys), Except(kvs, keys));
    ExceptWeaklySorted(local, keys);
    StrictIffDistinct(Except(local, keys));
    DistinctReorders(Except(local, keys), Except(kvs, keys));
    if DistinctKeys(Except(kvs, keys)) {
      SameMap(Except(local, keys), Except(kvs, keys));
    }
  }

  lemma SameOrder(kvs: seq<Record>)
    ensures Reorders(kvs, kvs)
  {
  }

  lemma SameMerge(s: seq<Record>, a: seq<Record>, b: seq<Record>, t: seq<Record>)
    requires Merges(s, a, t) && Reorders(a, b) && |a| == |b|
    ensures Merges(s, b, t)
  {
  }
}
