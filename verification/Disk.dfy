/** The SCSI disk's backing store: a copy-on-write overlay over an image, and its delta file. */
module Disk {
  import opened Words
  import opened ByteOrder

  const BLOCK := 512

  type Block = s: seq<u8> | |s| == BLOCK witness seq(BLOCK, _ => 0)

  /** `direct` writes go to the image and there is no overlay. */
  datatype Disk = Disk(image: seq<Block>, overlay: map<nat, Block>, direct: bool)

  /** block_read. */
  function ReadBlock(d: Disk, lba: nat): Block {
    if lba in d.overlay then d.overlay[lba]
    else if lba < |d.image| then d.image[lba]
    else Zeros(BLOCK)
  }

  /** block_write. */
  function WriteBlock(d: Disk, lba: nat, b: Block): Disk {
    if !d.direct then d.(overlay := d.overlay[lba := b])
    else if lba < |d.image| then d.(image := d.image[lba := b])
    else d
  }

  // ---- runs of blocks ----

  function ReadBlocks(d: Disk, lba: nat, n: nat): (s: seq<u8>)
    ensures |s| == n * BLOCK
  {
    if n == 0 then [] else ReadBlocks(d, lba, n - 1) + ReadBlock(d, lba + n - 1)
  }

  function NthBlock(data: seq<u8>, i: nat): Block
    requires (i + 1) * BLOCK <= |data|
  {
    data[i * BLOCK..(i + 1) * BLOCK]
  }

  /** Write the first n whole blocks of data from lba on. */
  function WriteBlocks(d: Disk, lba: nat, data: seq<u8>, n: nat): Disk
    requires n * BLOCK <= |data|
  {
    if n == 0 then d else WriteBlock(WriteBlocks(d, lba, data, n - 1), lba + n - 1, NthBlock(data, n - 1))
  }

  /** On a copy-on-write disk, writing blocks changes exactly those blocks and never the image. */
  lemma {:induction false} WriteBlocksView(d: Disk, lba: nat, data: seq<u8>, n: nat, at: nat)
    requires n * BLOCK <= |data| && !d.direct
    ensures var w := WriteBlocks(d, lba, data, n);
      && w.image == d.image && !w.direct
      && ReadBlock(w, at) == if lba <= at < lba + n then NthBlock(data, at - lba) else ReadBlock(d, at)
  {
    if n > 0 {
      WriteBlocksView(d, lba, data, n - 1, at);
    }
  }

  /** Reading blocks back gives their contents in order. */
  lemma {:induction false} ReadBlocksNth(d: Disk, lba: nat, n: nat, i: nat)
    requires i < n
    ensures NthBlock(ReadBlocks(d, lba, n), i) == ReadBlock(d, lba + i)
  {
    if i < n - 1 {
      ReadBlocksNth(d, lba, n - 1, i);
      assert NthBlock(ReadBlocks(d, lba, n), i) == NthBlock(ReadBlocks(d, lba, n - 1), i);
    }
  }

  /** A read of just-written blocks returns the bytes written, even past the end of the image. */
  lemma {:induction false} ReadAfterWrite(d: Disk, lba: nat, data: seq<u8>, n: nat, k: nat)
    requires |data| == n * BLOCK && !d.direct && k <= n
    ensures ReadBlocks(WriteBlocks(d, lba, data, n), lba, k) == data[..k * BLOCK]
  {
    hide WriteBlocks, ReadBlock, NthBlock;
    if k > 0 {
      ReadAfterWrite(d, lba, data, n, k - 1);
      WriteBlocksView(d, lba, data, n, lba + k - 1);
      OneMore(data, k);
    }
  }

  lemma OneMore(data: seq<u8>, k: nat)
    requires 0 < k && k * BLOCK <= |data|
    ensures data[..k * BLOCK] == data[..(k - 1) * BLOCK] + NthBlock(data, k - 1)
  {
    var (a, b) := ((k - 1) * BLOCK, k * BLOCK);
    assert data[..b] == data[..a] + data[a..b];
  }

  // ---- the delta file ----

  const MAGIC: seq<u8> := [0x49, 0x4d, 0x44, 0x45, 0x4c, 0x54, 0x41, 0x31]
  const RECORD := 8 + BLOCK

  /** flush_delta: the magic, then a record for each overlay block in the map's own order. */
  function Records(overlay: map<nat, Block>, order: seq<nat>): seq<u8>
    requires forall lba :: lba in order ==> lba in overlay
  {
    if order == [] then []
    else Little(order[0], 8) + overlay[order[0]] + Records(overlay, order[1..])
  }

  function FlushDelta(overlay: map<nat, Block>, order: seq<nat>): seq<u8>
    requires forall lba :: lba in order ==> lba in overlay
  {
    MAGIC + Records(overlay, order)
  }

  function RecordBlock(file: seq<u8>): Block
    requires |file| >= RECORD
  {
    file[8..RECORD]
  }

  /** load_delta: later records win; a bad magic loads nothing; a torn last record is dropped. */
  function LoadRecords(file: seq<u8>, overlay: map<nat, Block>): map<nat, Block> {
    if |file| < RECORD then overlay
    else LoadRecords(file[RECORD..], overlay[FromLittle(file[..8]) := RecordBlock(file)])
  }

  function LoadDelta(file: seq<u8>, overlay: map<nat, Block>): map<nat, Block> {
    if |file| < 8 || file[..8] != MAGIC then overlay else LoadRecords(file[8..], overlay)
  }

  lemma FirstRecord(overlay: map<nat, Block>, order: seq<nat>)
    requires order != [] && forall lba :: lba in order ==> lba in overlay && lba < Pow256(8)
    ensures var (file, lba) := (Records(overlay, order), order[0]);
      && |file| >= RECORD && FromLittle(file[..8]) == lba && RecordBlock(file) == overlay[lba]
      && file[RECORD..] == Records(overlay, order[1..])
  {
    var (file, lba) := (Records(overlay, order), order[0]);
    LittleRoundTrip(lba, 8);
    assert file[..8] == Little(lba, 8) && file[8..RECORD] == overlay[lba];
  }

  lemma {:induction false} LoadsRecords(overlay: map<nat, Block>, order: seq<nat>, onto: map<nat, Block>)
    requires forall lba :: lba in order ==> lba in overlay && lba < Pow256(8)
    ensures var r := LoadRecords(Records(overlay, order), onto);
      && r.Keys == onto.Keys + (set lba | lba in order)
      && forall lba :: lba in r ==> r[lba] == if lba in order then overlay[lba] else onto[lba]
    decreases |order|
  {
    hide FromLittle, RecordBlock, Little, Pow256;
    if order != [] {
      FirstRecord(overlay, order);
      assert forall lba :: lba in order[1..] ==> lba in order;
      LoadsRecords(overlay, order[1..], onto[order[0] := overlay[order[0]]]);
      assert order == [order[0]] + order[1..];
    }
  }

  /** Loading a flushed delta into an empty overlay restores it, whatever order it was written in. */
  lemma DeltaRoundTrip(overlay: map<nat, Block>, order: seq<nat>)
    requires forall lba :: lba in order <==> lba in overlay
    requires forall lba :: lba in overlay ==> lba < Pow256(8)
    ensures LoadDelta(FlushDelta(overlay, order), map[]) == overlay
  {
    var file := FlushDelta(overlay, order);
    assert file[..8] == MAGIC && file[8..] == Records(overlay, order);
    LoadsRecords(overlay, order, map[]);
  }
}
