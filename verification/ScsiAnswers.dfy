/** What the disk answers to the commands other than reads and writes, in register and data bytes. */
module ScsiAnswers {
  import opened Words
  import opened ByteOrder
  import opened Disk
  import opened Scsi

  /** A command block's opcode and allocation length for unit 0 of the disk, nothing being resumed. */
  predicate Asks(d: Dev, op: u8, alloc: u8)
    requires Valid(d)
  {
    && d.regs[3] == op && d.regs[7] == alloc && d.regs[0x15] % 8 == 1 && d.regs[0x0f] % 8 == 0
    && (d.phase == Idle || d.pos == 0)
  }

  /** The device waits to be read these bytes. */
  predicate Offers(d: Dev, data: seq<u8>) {
    d.phase == DataIn && d.drq && d.pos == 0 && d.buf == data
  }

  lemma CapacityIsBig(x: u32)
    ensures [x / 0x1000000, x / 0x10000 % 256, x / 0x100 % 256, x % 256] == Big(x, 4)
  {
    var s: seq<u8> := [x / 0x1000000, x / 0x10000 % 256, x / 0x100 % 256, x % 256];
    BigFour(s);
    BigOfFrom(s);
    var a, b := x / 0x100, x / 0x10000;
    QuotientUnique(x, 0x10000, a / 0x100, a % 0x100 * 0x100 + x % 0x100);
    QuotientUnique(x, 0x1000000, b / 0x100, b % 0x100 * 0x10000 + x % 0x10000);
  }

  lemma CapacityBytes(d: Disk)
    requires 0 < |d.image| <= U32
    ensures Capacity(d) == Big(|d.image| - 1, 4) + Big(512, 4)
  {
    hide Big;
    CapacityIsBig(|d.image| - 1);
    CapacityIsBig(512);
  }

  /** READ CAPACITY answers with the last block's address and the block size, most significant byte
      first. */
  lemma CapacityAnswer(d: Dev, alloc: u8)
    requires Valid(d) && Asks(d, 0x25, alloc) && 0 < |d.disk.image| <= U32
    ensures Offers(Select(d), Big(|d.disk.image| - 1, 4) + Big(512, 4))
  {
    hide Capacity, Big;
    CapacityBytes(d.disk);
  }

  /** INQUIRY answers with as many of a SCSI-2 disk's 36 bytes as are asked for: a direct-access device,
      31 bytes after the fifth, vendor SGI from byte 8 on. */
  lemma InquiryAnswer(d: Dev, alloc: u8)
    requires Valid(d) && Asks(d, 0x12, alloc) && alloc > 0
    ensures var t := Select(d);
      && Offers(t, t.buf) && |t.buf| == Min(alloc, 36)
      && (alloc >= 11 ==> t.buf[0] == 0 && t.buf[2] == 2 && t.buf[3] == 2 && t.buf[4] == 31
                          && t.buf[8] == 'S' as int && t.buf[9] == 'G' as int && t.buf[10] == 'I' as int)
  {
    hide INQUIRY;
    InquiryBytes();
  }

  lemma InquiryBytes()
    ensures |INQUIRY| == 36 && INQUIRY[0] == 0 && INQUIRY[2] == 2 && INQUIRY[3] == 2 && INQUIRY[4] == 31
    ensures INQUIRY[8] == 'S' as int && INQUIRY[9] == 'G' as int && INQUIRY[10] == 'I' as int
  {
  }

  /** A command to a unit other than 0 ends with a check condition, and the sense data asked for next say
      why: illegal request, unit not supported. */
  lemma BadUnitSense(d: Dev, e: Dev, op: u8, alloc: u8)
    requires Valid(d) && Valid(e) && (d.phase == Idle || d.pos == 0) && alloc >= 18
    requires d.regs[3] == op != 0x03 && d.regs[0x15] % 8 == 1 && d.regs[0x0f] % 8 != 0
    requires e.sense == Select(d).sense && Asks(e, 0x03, alloc)
    ensures Select(d).regs[0x0f] == 2 && Select(d).phase == Idle && Select(d).posts == d.posts + 1
    ensures var t := Select(e);
      && Offers(t, t.buf) && |t.buf| == 18
      && t.buf[0] == 0x70 && t.buf[2] == 5 && t.buf[7] == 10 && t.buf[12] == 0x25 && t.buf[13] == 0
  {
  }

  /** Another target does not answer: the controller reports a timeout and the disk is left alone. */
  lemma OtherTarget(d: Dev)
    requires Valid(d) && (d.phase == Idle || d.pos == 0) && d.regs[0x15] % 8 != 1
    ensures var t := Select(d);
      t.intrq && t.regs[0x17] == 0x42 && t.posts == d.posts + 1 && t.disk == d.disk && t.phase == d.phase
  {
  }

  /** The registers a driver reads after a command: ended, with the target's status, or paused in its data
      phase; the transfer count is zero either way. */
  lemma Reports(d: Dev)
    requires Valid(d)
    ensures var f := Finish(d).regs;
      f[0x17] == 0x16 && f[0x10] == 0x60 && f[0x0f] == d.tgtStatus && f[0x12..0x15] == [0, 0, 0]
    ensures var p := Pause(d).regs;
      p[0x17] == (if d.phase == DataOut then 0x48 else 0x49) && p[0x10] == 0x46 && p[0x12..0x15] == [0, 0, 0]
  {
  }
}
