// The header of the arena: its records lie before the first block and apart from one another.
module BuddyHeader {
  import opened SizeClasses
  import opened BuddyLayout
  import opened BuddySpec

  // The table's own fields: four 8-byte offsets, a flag and a counter, padded to eight bytes.
  const TABLE_HEAD_SIZE: nat := 40
  const PAGE_INFO_SIZE: nat := 8
  const SLAB_INFO_SIZE: nat := 16

  // Where the list head of a page level lies, and the record of a slab level.
  function PageInfoAddr(begin: nat, level: nat): nat {
    begin + TABLE_HEAD_SIZE + level * PAGE_INFO_SIZE
  }

  function SlabInfoAddr(begin: nat, level: nat): nat {
    begin + TABLE_HEAD_SIZE + PAGE_MAX_LEVELS * PAGE_INFO_SIZE + level * SLAB_INFO_SIZE
  }

  // The records of the header by number: the table's fields, six list heads, forty-six slab records.
  const RECORDS: nat := 53

  function RecordAddr(begin: nat, i: nat): nat
    requires i < RECORDS
  {
    if i == 0 then begin else if i <= 6 then PageInfoAddr(begin, i - 1) else SlabInfoAddr(begin, i - 7)
  }

  function RecordSize(i: nat): nat
    requires i < RECORDS
  {
    if i == 0 then TABLE_HEAD_SIZE else if i <= 6 then PAGE_INFO_SIZE else SLAB_INFO_SIZE
  }

  // The records follow one another without a gap, and the last one ends 824 bytes in.
  lemma RecordsFollow(begin: nat, i: nat)
    requires i < RECORDS
    ensures RecordAddr(begin, 0) == begin
    ensures i + 1 < RECORDS ==> RecordAddr(begin, i) + RecordSize(i) == RecordAddr(begin, i + 1)
    ensures i + 1 == RECORDS ==> RecordAddr(begin, i) + RecordSize(i) == begin + 824
  {
  }

  lemma {:induction false} RecordsApart(begin: nat, i: nat, j: nat)
    requires i < j < RECORDS
    ensures RecordAddr(begin, i) + RecordSize(i) <= RecordAddr(begin, j)
    decreases j - i
  {
    RecordsFollow(begin, i);
    if i + 1 < j {
      RecordsApart(begin, i + 1, j);
    }
  }

  lemma RecordsEnd(begin: nat, i: nat)
    requires i < RECORDS
    ensures RecordAddr(begin, i) + RecordSize(i) <= begin + 824
  {
    RecordsFollow(begin, RECORDS - 1);
    if i + 1 < RECORDS {
      RecordsApart(begin, i, RECORDS - 1);
    }
  }

  // In every run from initialisation over six list heads every block, free or outstanding, lies behind every record of
  // the header.
  lemma HeaderIsSafe(begin: nat, ops: seq<Op>, i: nat, level: nat, a: nat)
    requires begin + DEFAULT_PAGE_MEM_SIZE < INVALID_MEM_ADDR && i < RECORDS
    requires Runs(Start(begin, 6), ops)
    requires var s := After(Start(begin, 6), ops);
      |s.free| == |s.out| && (Has(s.out, level, a) || (level < |s.free| && a in s.free[level]))
    ensures RecordAddr(begin, i) + RecordSize(i) <= a
  {
    hide RecordAddr, RecordSize;
    RunFromInit(begin, 6, ops);
    RecordsEnd(begin, i);
    var s := After(Start(begin, 6), ops);
    FirstByte(begin);
    assert Has(Together(s.free, s.out), level, a);
  }

  lemma FirstByte(begin: nat)
    ensures begin + HEADER_SIZE == begin + 824
  {
  }

  // The first block begins where the last record ends, and it is the first one that a page is cut from.
  lemma FirstBlock(begin: nat)
    requires begin + DEFAULT_PAGE_MEM_SIZE < INVALID_MEM_ADDR
    ensures SlabInfoAddr(begin, 45) + SLAB_INFO_SIZE == begin + 824
    ensures Start(begin, 6).free[0] == [begin + 824] && UnitAddress(Start(begin, 6)) == begin + 824
  {
    PageSizeValues();
    var s := Start(begin, 6);
    assert s.free[0] == [begin + HEADER_SIZE + PageSize(0) - PageSize(0)];
  }

  // Two arenas that lie apart: a block of the one is never taken for a block of the other.
  lemma BelongsToOne(s: Arena, t: Arena, level: nat, a: nat)
    requires Good(s) && Good(t) && (s.End() <= t.begin || t.End() <= s.begin)
    requires Has(s.out, level, a)
    ensures BelongToTable(s, a, PageSize(level)) && !BelongToTable(t, a, PageSize(level))
  {
    OutstandingBelongs(s, level, a);
  }
}
