/** READ(10) and WRITE(10) as a driver issues them: which blocks of the disk reach which buffers. */
module HpcCommands {
  import opened Words
  import opened ByteOrder
  import opened Memory
  import opened Disk
  import opened Scsi
  import opened Hpc
  import opened HpcTransfer

  /** The controller's registers for a command on n blocks from lba on: the CDB from register 3, target 1
      in register 0x15 and unit 0 in register 0x0f. */
  predicate Issues(regs: RegFile, op: u8, lba: u32, n: nat) {
    && regs[3] == op && regs[5..9] == Big(lba, 4) && regs[10..12] == Big(n, 2) && 0 < n < 0x10000
    && regs[0x0f] % 8 == 0 && regs[0x15] % 8 == 1
  }

  /** The command's address and length are numbers with the most significant byte first. */
  lemma CdbFields(regs: RegFile, op: u8, lba: u32, n: nat)
    requires Issues(regs, op, lba, n)
    ensures CdbLba(regs) == lba && CdbLen(regs) == n
  {
    var (a, l) := (regs[5..9], regs[10..12]);
    assert Pow256(2) == 0x10000 && Pow256(4) == 0x1_0000_0000;
    BigRoundTrip(lba, 4);
    BigRoundTrip(n, 2);
    BigFour(a);
    BigTwo(l);
  }

  /** The block at this address: written since, or of the image, or zeros. */
  predicate BlockIs(d: Disk, at: nat, b: seq<u8>) {
    |b| == 512
    && if at in d.overlay then b == d.overlay[at]
       else if at < |d.image| then b == d.image[at]
       else forall j :: 0 <= j < 512 ==> b[j] == 0
  }

  /** Disk w is d with data written to n blocks from lba on: into the overlay and never the image, or,
      without an overlay, into the blocks of the image. */
  ghost predicate Rewritten(d: Disk, w: Disk, lba: nat, n: nat, data: seq<u8>)
    requires |data| == 512 * n
  {
    if d.direct then
      && w == d.(image := w.image) && |w.image| == |d.image|
      && forall at :: 0 <= at < |d.image| ==>
        w.image[at] == if lba <= at < lba + n then Part(data, at - lba) else d.image[at]
    else
      && w == d.(overlay := w.overlay)
      && (forall at: nat :: at in w.overlay <==> at in d.overlay || lba <= at < lba + n)
      && forall at: nat :: at in w.overlay ==>
        w.overlay[at] == if lba <= at < lba + n then Part(data, at - lba) else d.overlay[at]
  }

  /** The i-th 512 bytes. */
  function Part(data: seq<u8>, i: nat): seq<u8>
    requires 512 * (i + 1) <= |data|
  {
    data[512 * i..512 * (i + 1)]
  }

  lemma {:induction false} WritesInPlace(d: Disk, lba: nat, data: seq<u8>, n: nat, k: nat)
    requires |data| == 512 * n && k <= n
    ensures Rewritten(d, WriteBlocks(d, lba, data, k), lba, k, data[..512 * k])
  {
    if k > 0 {
      WritesInPlace(d, lba, data, n, k - 1);
      var (before, w) := (WriteBlocks(d, lba, data, k - 1), WriteBlocks(d, lba, data, k));
      assert w == WriteBlock(before, lba + k - 1, NthBlock(data, k - 1));
      forall i | 0 <= i < k ensures Part(data[..512 * k], i) == Part(data, i) {
      }
      forall i | 0 <= i < k - 1 ensures Part(data[..512 * (k - 1)], i) == Part(data, i) {
      }
      assert NthBlock(data, k - 1) == Part(data, k - 1);
    }
  }

  /** Nothing is in progress, and these chunks carry n blocks of a command on the blocks from lba on. */
  ghost predicate Begins(s: Sys, toDevice: bool, cs: seq<Chunk>, lba: u32, n: nat) {
    && Ok(s.link) && s.link.dev.phase == Idle && !s.chan.active && cs != []
    && Issues(cs[0].regs, if toDevice then 0x2a else 0x28, lba, n) && AllPrepared(s.route, toDevice, cs)
    && |AllBuffers(s.route, toDevice, cs[..|cs| - 1])| < 512 * n == |AllBuffers(s.route, toDevice, cs)|
  }

  lemma Begun(s: Sys, toDevice: bool, cs: seq<Chunk>, lba: u32, n: nat)
    requires Begins(s, toDevice, cs, lba, n)
    ensures Asks(s.link.dev, cs[0].regs, if toDevice then 0x2a else 0x28) && Covers(s.route, toDevice, cs)
    ensures CdbLba(cs[0].regs) == lba && CdbLen(cs[0].regs) == n
    ensures toDevice ==> |Sent(s.route, cs)| == 512 * n
  {
    hide AllBuffers, AllPrepared, CdbLba, CdbLen;
    CdbFields(cs[0].regs, if toDevice then 0x2a else 0x28, lba, n);
  }

  /** Command complete, GOOD, and one interrupt for each chunk. */
  predicate Ended(s: Sys, t: Sys, chunks: nat)
    requires Ok(t.link)
  {
    var d := t.link.dev;
    d.phase == Idle && d.regs[0x17] == 0x16 && d.regs[0x0f] == 0 && !t.chan.active && d.posts == s.link.dev.posts + chunks
  }

  /** A READ(10) of n blocks from lba on, in any chunks: the i-th 512 bytes of its buffers are block
      lba + i, the last chunk changes nothing but its buffers, and the disk is as before. */
  lemma ReadDelivers(s: Sys, cs: seq<Chunk>, lba: u32, n: nat)
    requires Begins(s, false, cs, lba, n) && Distinct(AllBuffers(s.route, false, cs)) && Keeps(s, cs)
    ensures var (t, c) := (ServeAll(s, false, cs), cs[|cs| - 1]);
      && (forall i :: 0 <= i < n ==>
            BlockIs(s.link.dev.disk, lba + i, Part(Gather(t.link.mem, AllBuffers(s.route, false, cs)), i)))
      && Walk(c.g, c.desc, c.len)
      && (forall x: u32 :: x !in Buffers(s.route, c) ==> t.link.mem[x] == c.mem[x])
      && t.link.dev.disk == s.link.dev.disk && Ended(s, t, |cs|)
  {
    hide AllBuffers, AllPrepared, Buffers, ServeAll, Keeps, CdbLba, CdbLen, Gather, BlockIs, Asks, Covers, Distinct, ReadBlocks;
    Begun(s, false, cs, lba, n);
    ReadGives(s, cs);
    var (d, data) := (s.link.dev.disk, Gather(ServeAll(s, false, cs).link.mem, AllBuffers(s.route, false, cs)));
    forall i | 0 <= i < n ensures BlockIs(d, lba + i, Part(data, i)) {
      NthIs(d, lba, n, i);
    }
  }

  lemma NthIs(d: Disk, lba: nat, n: nat, i: nat)
    requires i < n
    ensures BlockIs(d, lba + i, Part(ReadBlocks(d, lba, n), i))
  {
    hide ReadBlocks;
    ReadBlocksNth(d, lba, n, i);
  }

  /** A WRITE(10) of n blocks to lba on, in any chunks: the i-th 512 bytes that the driver sent become
      block lba + i, and no other block changes; but none does if the opcode has gone from the registers
      when the last byte arrives. Memory is as the driver leaves it. */
  lemma WriteStores(s: Sys, cs: seq<Chunk>, lba: u32, n: nat)
    requires Begins(s, true, cs, lba, n)
    ensures |Sent(s.route, cs)| == 512 * n
    ensures var (d, t, c) := (s.link.dev.disk, ServeAll(s, true, cs), cs[|cs| - 1]);
      && (if c.regs[3] == 0x2a then Rewritten(d, t.link.dev.disk, lba, n, Sent(s.route, cs)) else t.link.dev.disk == d)
      && t.link.mem == c.mem && Ended(s, t, |cs|)
  {
    hide AllBuffers, AllPrepared, ServeAll, CdbLba, CdbLen, Sent, Rewritten, Asks, Covers, WriteBlocks;
    Begun(s, true, cs, lba, n);
    WriteTakes(s, cs);
    var data := Sent(s.route, cs);
    WritesInPlace(s.link.dev.disk, lba, data, n, n);
    assert data[..512 * n] == data;
  }

  /** Blocks written in one set of chunks and read back in another come back byte for byte, whatever
      the driver does to memory and to the idle controller in between. */
  lemma DiskRoundTrip(s: Sys, cs: seq<Chunk>, s2: Sys, cs2: seq<Chunk>, lba: u32, n: nat)
    requires Begins(s, true, cs, lba, n) && cs[|cs| - 1].regs[3] == 0x2a && !s.link.dev.disk.direct
    requires Begins(s2, false, cs2, lba, n) && Distinct(AllBuffers(s2.route, false, cs2)) && Keeps(s2, cs2)
    ensures s2.link.dev.disk == ServeAll(s, true, cs).link.dev.disk ==>
      Gather(ServeAll(s2, false, cs2).link.mem, AllBuffers(s2.route, false, cs2)) == Sent(s.route, cs)
  {
    hide AllBuffers, AllPrepared, ServeAll, Sent, Gather, WriteBlocks, ReadBlocks, CdbLba, CdbLen, Distinct, Keeps, Asks, Covers;
    Begun(s, true, cs, lba, n);
    Begun(s2, false, cs2, lba, n);
    WriteTakes(s, cs);
    ReadGives(s2, cs2);
    ReadAfterWrite(s.link.dev.disk, lba, Sent(s.route, cs), n, n);
  }
}
