// The file a free list is dumped to: an 8-byte count and one 16-byte record a block, addresses as offsets.
module FreeListFile {
  import opened Bytes
  import opened PoolBlocks

  const COUNT_SIZE: nat := 8
  const RECORD_SIZE: nat := 16
  const TWO32: nat := 0x1_0000_0000
  const TWO64: nat := 0x1_0000_0000_0000_0000

  function Blank(k: nat): (zeros: seq<byte>)
    ensures |zeros| == k
  {
    seq(k, _ => 0)
  }

  // Writing at a position of a file, which grows as needed; a gap reads as zeros.
  function WriteAt(file: seq<byte>, pos: nat, data: seq<byte>): seq<byte> {
    if |file| <= pos then file + Blank(pos - |file|) + data
    else file[..pos] + data + (if pos + |data| < |file| then file[pos + |data|..] else [])
  }

  // A write changes the bytes it covers and no others.
  lemma WriteAtCovers(file: seq<byte>, pos: nat, data: seq<byte>)
    ensures var after := WriteAt(file, pos, data);
      && pos + |data| <= |after| && after[pos..pos + |data|] == data && |file| <= |after|
      && forall i :: 0 <= i < |file| && (i < pos || pos + |data| <= i) ==> after[i] == file[i]
  {
  }

  function Truncated(file: seq<byte>, size: nat): (after: seq<byte>)
    ensures |after| == size
  {
    if size <= |file| then file[..size] else file + Blank(size - |file|)
  }

  predicate AllBehind(blocks: seq<Block>, base: nat) {
    forall i :: 0 <= i < |blocks| ==> base <= blocks[i].addr
  }

  // A block in memory: its address as an offset from the data, a timestamp that is never set, its size.
  function RecordOf(b: Block, base: nat, stamp: nat): (bytes: seq<byte>)
    requires base <= b.addr
    ensures |bytes| == RECORD_SIZE
  {
    Encoded(b.addr - base, 8) + Encoded(stamp, 4) + Encoded(b.size, 4)
  }

  function RecordsOf(blocks: seq<Block>, base: nat, stamp: Block -> nat): (bytes: seq<byte>)
    requires AllBehind(blocks, base)
    ensures |bytes| == RECORD_SIZE * |blocks|
  {
    if blocks == [] then []
    else
      var last := blocks[|blocks| - 1];
      RecordsOf(blocks[..|blocks| - 1], base, stamp) + RecordOf(last, base, stamp(last))
  }

  function FileOf(blocks: seq<Block>, base: nat, stamp: Block -> nat): (file: seq<byte>)
    requires AllBehind(blocks, base)
    ensures |file| == COUNT_SIZE + RECORD_SIZE * |blocks|
  {
    Encoded(|blocks|, COUNT_SIZE) + RecordsOf(blocks, base, stamp)
  }

  // ---------- reading ----------

  function CountIn(file: seq<byte>): nat
    requires COUNT_SIZE <= |file|
  {
    Little(file[..COUNT_SIZE])
  }

  predicate Complete(file: seq<byte>) {
    COUNT_SIZE <= |file| && COUNT_SIZE + RECORD_SIZE * CountIn(file) <= |file|
  }

  function BlockIn(file: seq<byte>, base: nat, pos: nat): Block
    requires pos + RECORD_SIZE <= |file|
  {
    Block(base + Little(file[pos..pos + 8]), Little(file[pos + 12..pos + 16]))
  }

  // The first k blocks of a file, read relative to a base address.
  function BlocksIn(file: seq<byte>, base: nat, k: nat): (blocks: seq<Block>)
    requires COUNT_SIZE + RECORD_SIZE * k <= |file|
    ensures |blocks| == k
  {
    if k == 0 then []
    else BlocksIn(file, base, k - 1) + [BlockIn(file, base, COUNT_SIZE + RECORD_SIZE * (k - 1))]
  }

  lemma NoBlocksIn(file: seq<byte>, base: nat)
    requires Complete(file)
    ensures COUNT_SIZE <= |file| && BlocksIn(file, base, 0) == []
  {
  }

  lemma NextBlockIn(file: seq<byte>, base: nat, k: nat)
    requires Complete(file) && k < CountIn(file)
    ensures COUNT_SIZE + RECORD_SIZE * k + RECORD_SIZE == COUNT_SIZE + RECORD_SIZE * (k + 1) <= |file|
    ensures BlocksIn(file, base, k + 1)
         == BlocksIn(file, base, k) + [BlockIn(file, base, COUNT_SIZE + RECORD_SIZE * k)]
  {
  }

  // ---------- the round trip ----------

  function Shifted(b: Block, from: nat, to: nat): Block
    requires from <= b.addr
  {
    Block(b.addr - from + to, b.size)
  }

  // Blocks whose offset and size the record's fields hold.
  predicate Storable(b: Block, base: nat) {
    base <= b.addr < base + TWO64 && b.size < TWO32
  }

  predicate AllStorable(blocks: seq<Block>, base: nat)
    ensures AllStorable(blocks, base) ==> AllBehind(blocks, base)
  {
    forall i :: 0 <= i < |blocks| ==> Storable(blocks[i], base)
  }

  lemma RecordRoundTrip(b: Block, from: nat, to: nat, stamp: nat)
    requires Storable(b, from)
    ensures BlockIn(RecordOf(b, from, stamp), to, 0) == Shifted(b, from, to)
  {
    hide Encoded, Little;
    var bytes := RecordOf(b, from, stamp);
    assert bytes[0..8] == Encoded(b.addr - from, 8);
    assert bytes[12..16] == Encoded(b.size, 4);
    PowerValues();
    LittleEncoded(b.addr - from, 8);
    LittleEncoded(b.size, 4);
  }

  lemma BlockInSlice(file: seq<byte>, base: nat, pos: nat)
    requires pos + RECORD_SIZE <= |file|
    ensures BlockIn(file, base, pos) == BlockIn(file[pos..pos + RECORD_SIZE], base, 0)
  {
    var slice := file[pos..pos + RECORD_SIZE];
    assert slice[0..8] == file[pos..pos + 8];
    assert slice[12..16] == file[pos + 12..pos + 16];
  }

  lemma {:induction false} RecordsPrefix(blocks: seq<Block>, base: nat, stamp: Block -> nat, k: nat)
    requires k <= |blocks| && AllBehind(blocks, base)
    ensures RecordsOf(blocks, base, stamp)[..RECORD_SIZE * k] == RecordsOf(blocks[..k], base, stamp)
    decreases |blocks|
  {
    hide RecordOf;
    if k < |blocks| {
      var front := blocks[..|blocks| - 1];
      RecordsPrefix(front, base, stamp, k);
      assert blocks[..k] == front[..k];
      var part := RecordsOf(front, base, stamp);
      assert RecordsOf(blocks, base, stamp)[..RECORD_SIZE * k] == part[..RECORD_SIZE * k];
    } else {
      assert blocks[..k] == blocks;
    }
  }

  // The record of the k-th block stands where the reader looks for it.
  lemma RecordInFile(blocks: seq<Block>, base: nat, stamp: Block -> nat, k: nat)
    requires k < |blocks| && AllBehind(blocks, base)
    ensures FileOf(blocks, base, stamp)[COUNT_SIZE + RECORD_SIZE * k..COUNT_SIZE + RECORD_SIZE * k + RECORD_SIZE]
         == RecordOf(blocks[k], base, stamp(blocks[k]))
  {
    hide RecordOf, FileOf;
    RecordAt(blocks, base, stamp, k);
    FileTail(blocks, base, stamp);
    var file, records := FileOf(blocks, base, stamp), RecordsOf(blocks, base, stamp);
    assert file[COUNT_SIZE..][RECORD_SIZE * k..RECORD_SIZE * k + RECORD_SIZE]
        == file[COUNT_SIZE + RECORD_SIZE * k..COUNT_SIZE + RECORD_SIZE * k + RECORD_SIZE];
  }

  lemma FileTail(blocks: seq<Block>, base: nat, stamp: Block -> nat)
    requires AllBehind(blocks, base)
    ensures FileOf(blocks, base, stamp)[COUNT_SIZE..] == RecordsOf(blocks, base, stamp)
  {
  }

  lemma RecordAt(blocks: seq<Block>, base: nat, stamp: Block -> nat, k: nat)
    requires k < |blocks| && AllBehind(blocks, base)
    ensures RecordsOf(blocks, base, stamp)[RECORD_SIZE * k..RECORD_SIZE * k + RECORD_SIZE]
         == RecordOf(blocks[k], base, stamp(blocks[k]))
  {
    hide RecordOf;
    var records := RecordsOf(blocks, base, stamp);
    var upto := blocks[..k + 1];
    RecordsPrefix(blocks, base, stamp, k + 1);
    assert upto[..k] == blocks[..k] && upto[k] == blocks[k];
    assert records[RECORD_SIZE * k..RECORD_SIZE * k + RECORD_SIZE]
        == records[..RECORD_SIZE * (k + 1)][RECORD_SIZE * k..];
  }

  lemma BlockRoundTrip(blocks: seq<Block>, from: nat, to: nat, stamp: Block -> nat, k: nat)
    requires k < |blocks| && AllStorable(blocks, from)
    ensures BlockIn(FileOf(blocks, from, stamp), to, COUNT_SIZE + RECORD_SIZE * k) == Shifted(blocks[k], from, to)
  {
    hide FileOf, RecordsOf, RecordOf, BlockIn, Shifted;
    RecordInFile(blocks, from, stamp, k);
    BlockInSlice(FileOf(blocks, from, stamp), to, COUNT_SIZE + RECORD_SIZE * k);
    assert Storable(blocks[k], from);
    RecordRoundTrip(blocks[k], from, to, stamp(blocks[k]));
  }

  lemma {:induction false} BlocksRoundTrip(blocks: seq<Block>, from: nat, to: nat, stamp: Block -> nat, k: nat)
    requires k <= |blocks| && AllStorable(blocks, from)
    ensures forall i :: 0 <= i < k ==> BlocksIn(FileOf(blocks, from, stamp), to, k)[i] == Shifted(blocks[i], from, to)
  {
    hide FileOf, BlockIn, Shifted;
    if k != 0 {
      BlocksRoundTrip(blocks, from, to, stamp, k - 1);
      BlockRoundTrip(blocks, from, to, stamp, k - 1);
    }
  }

  // A dumped file read at another base gives the same blocks, shifted by the difference of the bases.
  lemma FileRoundTrip(blocks: seq<Block>, from: nat, to: nat, stamp: Block -> nat)
    requires |blocks| < TWO64 && AllStorable(blocks, from)
    ensures var file := FileOf(blocks, from, stamp);
      && |file| == COUNT_SIZE + RECORD_SIZE * |blocks|
      && CountIn(file) == |blocks| && Complete(file)
      && forall i :: 0 <= i < |blocks| ==> BlocksIn(file, to, |blocks|)[i] == Shifted(blocks[i], from, to)
  {
    var file := FileOf(blocks, from, stamp);
    assert file[..COUNT_SIZE] == Encoded(|blocks|, COUNT_SIZE);
    PowerValues();
    LittleEncoded(|blocks|, COUNT_SIZE);
    BlocksRoundTrip(blocks, from, to, stamp, |blocks|);
  }

  // The layout of a dumped file in bytes: the count in the first eight, then for each block sixteen, its offset in the
  // first eight of them and its size in the last four.
  lemma FileLayout(blocks: seq<Block>, base: nat, stamp: Block -> nat, k: nat)
    requires k < |blocks| < TWO64 && AllStorable(blocks, base)
    ensures var file := FileOf(blocks, base, stamp);
      && |file| == 8 + 16 * |blocks|
      && Little(file[0..8]) == |blocks|
      && Little(file[8 + 16 * k..8 + 16 * k + 8]) == blocks[k].addr - base
      && Little(file[8 + 16 * k + 12..8 + 16 * k + 16]) == blocks[k].size
  {
    hide FileOf, RecordOf, Little;
    var file := FileOf(blocks, base, stamp);
    var at := 8 + 16 * k;
    RecordInFile(blocks, base, stamp, k);
    CountFirst(blocks, base, stamp);
    assert Storable(blocks[k], base);
    RecordLayout(blocks[k], base, stamp(blocks[k]));
    assert file[at..at + 8] == file[at..at + 16][0..8];
    assert file[at + 12..at + 16] == file[at..at + 16][12..16];
  }

  lemma CountFirst(blocks: seq<Block>, base: nat, stamp: Block -> nat)
    requires |blocks| < TWO64 && AllBehind(blocks, base)
    ensures Little(FileOf(blocks, base, stamp)[0..8]) == |blocks|
  {
    hide RecordsOf, Encoded, Little;
    assert FileOf(blocks, base, stamp)[0..8] == Encoded(|blocks|, 8);
    PowerValues();
    LittleEncoded(|blocks|, 8);
  }

  lemma RecordLayout(b: Block, base: nat, stamp: nat)
    requires Storable(b, base)
    ensures Little(RecordOf(b, base, stamp)[0..8]) == b.addr - base
    ensures Little(RecordOf(b, base, stamp)[12..16]) == b.size
  {
    hide Encoded, Little;
    var record := RecordOf(b, base, stamp);
    assert record[0..8] == Encoded(b.addr - base, 8);
    assert record[12..16] == Encoded(b.size, 4);
    PowerValues();
    LittleEncoded(b.addr - base, 8);
    LittleEncoded(b.size, 4);
  }

  // ---------- writing ----------

  // After some records were written: they stand behind the place of the count, whatever the file held before.
  ghost predicate Written(file: seq<byte>, blocks: seq<Block>, base: nat, stamp: Block -> nat)
    requires AllBehind(blocks, base)
  {
    var end := COUNT_SIZE + RECORD_SIZE * |blocks|;
    blocks == [] || (end <= |file| && file[COUNT_SIZE..end] == RecordsOf(blocks, base, stamp))
  }

  lemma NothingWritten(file: seq<byte>, base: nat, stamp: Block -> nat)
    ensures AllBehind([], base) && Written(file, [], base, stamp)
  {
  }

  lemma WriteRecord(file: seq<byte>, blocks: seq<Block>, base: nat, stamp: Block -> nat, b: Block)
    requires AllBehind(blocks, base)
    requires base <= b.addr && Written(file, blocks, base, stamp)
    ensures AllBehind(blocks + [b], base)
    ensures Written(WriteAt(file, COUNT_SIZE + RECORD_SIZE * |blocks|, RecordOf(b, base, stamp(b))),
      blocks + [b], base, stamp)
  {
    var end := COUNT_SIZE + RECORD_SIZE * |blocks|;
    var data := RecordOf(b, base, stamp(b));
    var after := WriteAt(file, end, data);
    WriteAtCovers(file, end, data);
    assert (blocks + [b])[..|blocks|] == blocks;
    if blocks == [] {
      assert RecordsOf(blocks, base, stamp) + data == data;
    } else {
      AppendSlice(file, after, RecordsOf(blocks, base, stamp), COUNT_SIZE, end, data);
    }
  }

  lemma AppendSlice(file: seq<byte>, after: seq<byte>, part: seq<byte>, from: nat, end: nat, data: seq<byte>)
    requires from <= end <= |file| && file[from..end] == part
    requires end + |data| <= |after| && after[end..end + |data|] == data
    requires forall i :: 0 <= i < end ==> after[i] == file[i]
    ensures after[from..end + |data|] == part + data
  {
    assert after[from..end] == file[from..end];
    assert after[from..end + |data|] == after[from..end] + after[end..end + |data|];
  }

  lemma WriteCount(file: seq<byte>, blocks: seq<Block>, base: nat, stamp: Block -> nat)
    requires AllBehind(blocks, base)
    requires Written(file, blocks, base, stamp)
    ensures Truncated(WriteAt(file, 0, Encoded(|blocks|, COUNT_SIZE)), COUNT_SIZE + RECORD_SIZE * |blocks|)
         == FileOf(blocks, base, stamp)
  {
    hide Encoded, RecordsOf, WriteAt;
    var end := COUNT_SIZE + RECORD_SIZE * |blocks|;
    var after := WriteAt(file, 0, Encoded(|blocks|, COUNT_SIZE));
    WriteAtCovers(file, 0, Encoded(|blocks|, COUNT_SIZE));
    assert after[..COUNT_SIZE] == after[0..COUNT_SIZE];
    if blocks != [] {
      assert end <= |file|;
      assert after[COUNT_SIZE..end] == file[COUNT_SIZE..end];
      assert after[..end] == after[..COUNT_SIZE] + after[COUNT_SIZE..end];
    } else {
      assert RecordsOf(blocks, base, stamp) == [];
    }
  }
}
