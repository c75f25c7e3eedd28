// Whole runs of the sorted table, of either kind, against a map and a capacity.
module SortRuns {
  import opened SortSearch
  import opened SortBatch
  import opened SortOrder
  import opened SortKeys
  import opened SortTables

  // Operations of a run; batches come with their hash keys.
  datatype Op =
    | Put(key: Key, value: int, payloadEmpty: bool)
    | Get(key: Key)
    | PutBatch(kvs: seq<Record>, alreadySorted: bool)
    | RemoveBatch(kvs: seq<Record>, alreadySorted: bool)

  datatype Answer = Done(ok: bool) | Found(value: int) | Missing

  // All that the answers depend on: what is mapped, and how many records the table's memory holds.
  datatype State = State(m: map<int, int>, capacity: nat)

  // The entries of a batch that a table with this map does not hold.
  ghost function New(m: map<int, int>, kvs: seq<Record>): seq<Record> {
    Except(kvs, m.Keys)
  }

  ghost predicate HasRoom(s: State, kvs: seq<Record>) {
    |s.m| + |New(s.m, kvs)| <= s.capacity
  }

  // What a run may ask for. A full exclusive table of capacity zero cannot grow; an exclusive table takes a batch only
  // if there is room; the new keys of a batch are distinct; a batch called sorted is.
  ghost predicate Legal(hash: Hash, exclusive: bool, s: State, op: Op) {
    && |s.m| < 0x8000_0000
    && match op
       case Put(key, _, payloadEmpty) =>
         payloadEmpty && key.Key? && HashKey(hash, key.bytes) !in s.m && exclusive && |s.m| == s.capacity ==>
           0 < s.capacity
       case Get(_) => true
       case PutBatch(kvs, alreadySorted) =>
         && DistinctKeys(New(s.m, kvs)) && (alreadySorted ==> WeaklySorted(kvs)) && (exclusive ==> HasRoom(s, kvs))
       case RemoveBatch(kvs, alreadySorted) => alreadySorted ==> WeaklySorted(kvs)
  }

  function Grown(exclusive: bool, capacity: nat): nat {
    if exclusive then 2 * capacity else 2 * capacity + 1
  }

  ghost function AnswerOf(hash: Hash, s: State, op: Op): Answer {
    match op
    case Put(key, _, payloadEmpty) => Done(payloadEmpty && key.Key?)
    case Get(key) =>
      if key.Key? && HashKey(hash, key.bytes) in s.m then Found(s.m[HashKey(hash, key.bytes)]) else Missing
    case PutBatch(kvs, _) => Done(HasRoom(s, kvs))
    case RemoveBatch(_, _) => Done(true)
  }

  ghost function StateAfter(hash: Hash, exclusive: bool, s: State, op: Op): State {
    match op
    case Put(key, value, payloadEmpty) =>
      if !payloadEmpty || key.NullKey? then s
      else
        var k := HashKey(hash, key.bytes);
        State(s.m[k := value], if k in s.m || |s.m| < s.capacity then s.capacity else Grown(exclusive, s.capacity))
    case Get(_) => s
    case PutBatch(kvs, _) => if HasRoom(s, kvs) then s.(m := s.m + ToMap(New(s.m, kvs))) else s
    case RemoveBatch(kvs, _) => s.(m := s.m - Keys(kvs))
  }

  ghost predicate LegalRun(hash: Hash, exclusive: bool, s: State, ops: seq<Op>)
    decreases |ops|
  {
    ops == [] || (
      && Legal(hash, exclusive, s, ops[0])
      && LegalRun(hash, exclusive, StateAfter(hash, exclusive, s, ops[0]), ops[1..]))
  }

  ghost function Answers(hash: Hash, exclusive: bool, s: State, ops: seq<Op>): seq<Answer>
    decreases |ops|
  {
    if ops == [] then []
    else [AnswerOf(hash, s, ops[0])] + Answers(hash, exclusive, StateAfter(hash, exclusive, s, ops[0]), ops[1..])
  }

  // What the table stands for.
  ghost function StateOf(table: SortTable): State
    requires table.Valid()
    reads table, table.first
  {
    State(ToMap(table.Records()), table.totalSize)
  }

  lemma {:induction false} RecordsCount(s: seq<Record>)
    requires Sorted(s)
    ensures |Keys(s)| == |s|
  {
    if s != [] {
      var front, last := s[..|s| - 1], s[|s| - 1];
      RecordsCount(front);
      assert Keys(s) == Keys(front) + {last.key};
      assert last.key !in Keys(front);
    }
  }

  // The state in terms of the table's fields.
  lemma StateIs(table: SortTable)
    requires table.Valid()
    ensures var s := StateOf(table);
      && s.capacity == table.totalSize && |s.m| == table.usedSize <= s.capacity
      && s.m.Keys == Keys(table.Records()) && s.m == ToMap(table.Records())
  {
    RecordsCount(table.Records());
    assert ToMap(table.Records()).Keys == Keys(table.Records());
  }

  method Apply(hash: Hash, table: SortTable, op: Op) returns (answer: Answer)
    requires table.Valid() && Legal(hash, table.exclusive, StateOf(table), op)
    modifies table, table.first
    ensures table.Valid() && table.exclusive == old(table.exclusive)
    ensures table.first == old(table.first) || fresh(table.first)
    ensures answer == AnswerOf(hash, old(StateOf(table)), op)
    ensures StateOf(table) == StateAfter(hash, table.exclusive, old(StateOf(table)), op)
  {
    hide *;
    StateIs(table);
    ghost var s := StateOf(table);
    LegalIs(hash, table.exclusive, s, op);
    match op
    case Put(key, value, payloadEmpty) =>
      RoomToPut(table);
      var ok := table.InsertPair(hash, key, value, payloadEmpty);
      StateIs(table);
      PutIs(hash, table.exclusive, s, StateOf(table), op);
      answer := Done(ok);
    case Get(key) =>
      var found, value := table.SearchPair(hash, key);
      GetIs(hash, table.exclusive, s, op);
      answer := if found then Found(value) else Missing;
    case PutBatch(kvs, alreadySorted) =>
      var ok := table.BatchInsert(kvs, alreadySorted);
      StateIs(table);
      BatchIs(hash, table.exclusive, s, StateOf(table), op);
      answer := Done(ok);
    case RemoveBatch(kvs, alreadySorted) =>
      table.BatchDelete(kvs, alreadySorted);
      StateIs(table);
      BatchIs(hash, table.exclusive, s, StateOf(table), op);
      answer := Done(true);
  }

  lemma LegalIs(hash: Hash, exclusive: bool, s: State, op: Op)
    requires Legal(hash, exclusive, s, op)
    ensures |s.m| < 0x8000_0000
    ensures op.Put? && op.payloadEmpty && op.key.Key? && HashKey(hash, op.key.bytes) !in s.m ==>
      |s.m| != s.capacity || !exclusive || 0 < s.capacity
    ensures op.PutBatch? ==>
      && DistinctKeys(Except(op.kvs, s.m.Keys)) && (op.alreadySorted ==> WeaklySorted(op.kvs))
      && (exclusive ==> |s.m| + |Except(op.kvs, s.m.Keys)| <= s.capacity)
    ensures op.RemoveBatch? ==> (op.alreadySorted ==> WeaklySorted(op.kvs))
  {
  }

  lemma RoomToPut(table: SortTable)
    ensures table.usedSize < table.totalSize || !table.exclusive || 0 < table.totalSize ==> table.CanAdd()
    ensures table.CapacityAfterAdd() ==
      if table.usedSize < table.totalSize then table.totalSize else Grown(table.exclusive, table.totalSize)
  {
  }

  lemma PutIs(hash: Hash, exclusive: bool, s: State, t: State, op: Op)
    requires op.Put?
    requires if op.payloadEmpty && op.key.Key? then
        var k := HashKey(hash, op.key.bytes);
        && t.m == s.m[k := op.value]
        && (k in s.m ==> t.capacity == s.capacity)
        && (k !in s.m ==> t.capacity == if |s.m| < s.capacity then s.capacity else Grown(exclusive, s.capacity))
      else t == s
    ensures AnswerOf(hash, s, op) == Done(op.payloadEmpty && op.key.Key?)
    ensures t == StateAfter(hash, exclusive, s, op)
  {
  }

  lemma GetIs(hash: Hash, exclusive: bool, s: State, op: Op)
    requires op.Get?
    ensures StateAfter(hash, exclusive, s, op) == s
    ensures AnswerOf(hash, s, op) ==
      if op.key.Key? && HashKey(hash, op.key.bytes) in s.m then Found(s.m[HashKey(hash, op.key.bytes)]) else Missing
  {
  }

  lemma BatchIs(hash: Hash, exclusive: bool, s: State, t: State, op: Op)
    requires op.PutBatch? || op.RemoveBatch?
    requires t.capacity == s.capacity
    requires op.RemoveBatch? ==> t.m == s.m - Keys(op.kvs)
    requires op.PutBatch? ==>
      t.m == if |s.m| + |Except(op.kvs, s.m.Keys)| <= s.capacity then s.m + ToMap(Except(op.kvs, s.m.Keys)) else s.m
    ensures op.RemoveBatch? ==> AnswerOf(hash, s, op) == Done(true)
    ensures op.PutBatch? ==> AnswerOf(hash, s, op) == Done(|s.m| + |Except(op.kvs, s.m.Keys)| <= s.capacity)
    ensures t == StateAfter(hash, exclusive, s, op)
  {
  }

  // Every run of a table of either kind gives the answers of a map with a capacity.
  method Replay(hash: Hash, initRecordNum: nat, exclusive: bool, ops: seq<Op>) returns (answers: seq<Answer>)
    requires LegalRun(hash, exclusive, State(map[], initRecordNum), ops)
    ensures answers == Answers(hash, exclusive, State(map[], initRecordNum), ops)
  {
    hide *;
    var table := new SortTable.InitEmpty(initRecordNum, exclusive);
    EmptyState(table);
    answers := [];
    RunStarts(hash, exclusive, StateOf(table), ops);
    var i := 0;
    while i < |ops|
      invariant 0 <= i <= |ops| && table.Valid() && table.exclusive == exclusive && fresh(table) && fresh(table.first)
      invariant RunSoFar(hash, exclusive, State(map[], initRecordNum), ops, i, StateOf(table), answers)
    {
      RunNext(hash, exclusive, State(map[], initRecordNum), ops, i, StateOf(table), answers);
      var answer := Apply(hash, table, ops[i]);
      answers := answers + [answer];
      i := i + 1;
    }
    RunEnds(hash, exclusive, State(map[], initRecordNum), ops, i, StateOf(table), answers);
  }

  // The answers so far, and those still due from the state reached, make up the answers to the whole run.
  ghost predicate RunSoFar(hash: Hash, exclusive: bool, start: State, ops: seq<Op>, i: nat, s: State,
      answers: seq<Answer>) {
    && i <= |ops| && LegalRun(hash, exclusive, s, ops[i..])
    && answers + Answers(hash, exclusive, s, ops[i..]) == Answers(hash, exclusive, start, ops)
  }

  lemma EmptyState(table: SortTable)
    requires table.Valid() && table.Records() == []
    ensures StateOf(table) == State(map[], table.totalSize)
  {
    assert ToMap([]) == map[];
  }

  lemma RunStarts(hash: Hash, exclusive: bool, start: State, ops: seq<Op>)
    requires LegalRun(hash, exclusive, start, ops)
    ensures RunSoFar(hash, exclusive, start, ops, 0, start, [])
  {
    assert ops[0..] == ops;
  }

  lemma RunNext(hash: Hash, exclusive: bool, start: State, ops: seq<Op>, i: nat, s: State, answers: seq<Answer>)
    requires i < |ops| && RunSoFar(hash, exclusive, start, ops, i, s, answers)
    ensures Legal(hash, exclusive, s, ops[i])
    ensures RunSoFar(hash, exclusive, start, ops, i + 1, StateAfter(hash, exclusive, s, ops[i]),
      answers + [AnswerOf(hash, s, ops[i])])
  {
    hide Legal, StateAfter, AnswerOf;
    assert ops[i..][0] == ops[i] && ops[i..][1..] == ops[i + 1..];
  }

  lemma RunEnds(hash: Hash, exclusive: bool, start: State, ops: seq<Op>, i: nat, s: State, answers: seq<Answer>)
    requires i == |ops| && RunSoFar(hash, exclusive, start, ops, i, s, answers)
    ensures answers == Answers(hash, exclusive, start, ops)
  {
    assert ops[i..] == [];
  }
}
