/** The WD33C93 with its one disk target, on values: command decode, the data phase, pause and
    resume, completion. */
module Scsi {
  import opened Words
  import opened ByteOrder
  import opened Disk

  const CDB := 0x03
  const TARGET_LUN := 0x0f
  const COMMAND_PHASE := 0x10
  const DEST_ID := 0x15
  const SCSI_STATUS := 0x17
  const DISK_TARGET := 1

  datatype Phase = Idle | DataIn | DataOut

  /** `posts` counts the interrupts posted so far. */
  datatype Dev = Dev(
    regs: seq<u8>, phase: Phase, buf: seq<u8>, pos: nat, drq: bool, intrq: bool,
    wrLba: nat, tgtStatus: u8, sense: seq<u8>, disk: Disk, posts: nat)

  /** Register file and sense data sizes, and the data-phase invariant: a cursor inside the buffer
      while a phase is open, and no request without one. */
  predicate Valid(d: Dev) {
    && |d.regs| == 32 && |d.sense| == 18
    && (d.phase != Idle ==> d.pos < |d.buf|)
    && (d.drq ==> d.phase != Idle)
  }

  function Residual(d: Dev): nat
    requires Valid(d)
  {
    if d.phase != Idle then |d.buf| - d.pos else 0
  }

  function Poke(regs: seq<u8>, i: nat, v: u8): (r: seq<u8>)
    requires |regs| == 32 && i < 32
    ensures |r| == 32
  {
    regs[i := v]
  }

  /** Status, command phase, zero transfer count, and the interrupt. */
  function Post(d: Dev, status: u8, cmdPhase: u8): (r: Dev)
    requires |d.regs| == 32
    ensures r == d.(regs := r.regs, intrq := true, posts := d.posts + 1) && |r.regs| == 32
    ensures forall i :: CDB <= i < TARGET_LUN ==> r.regs[i] == d.regs[i]
    ensures r.regs[SCSI_STATUS] == status && r.regs[DEST_ID] == d.regs[DEST_ID] && r.regs[TARGET_LUN] == d.regs[TARGET_LUN]
  {
    var regs := Poke(Poke(d.regs, SCSI_STATUS, status), COMMAND_PHASE, cmdPhase);
    var regs := Poke(Poke(Poke(regs, 0x12, 0), 0x13, 0), 0x14, 0);
    d.(regs := regs, intrq := true, posts := d.posts + 1)
  }

  /** finish: drain a WRITE(10) into the disk, then post completion with the target status. */
  function Finish(d: Dev): (r: Dev)
    requires |d.regs| == 32 && |d.sense| == 18
    ensures Valid(r) && r.phase == Idle && !r.drq && r.intrq && r.posts == d.posts + 1
  {
    var disk := if d.phase == DataOut && d.regs[CDB] == 0x2a then WriteBlocks(d.disk, d.wrLba, d.buf, |d.buf| / BLOCK) else d.disk;
    Post(d.(disk := disk, phase := Idle, drq := false, regs := Poke(d.regs, TARGET_LUN, d.tgtStatus)), 0x16, 0x60)
  }

  /** pause_transfer: a chain ended before the data phase did. */
  function Pause(d: Dev): (r: Dev)
    requires Valid(d)
    ensures Valid(r)
  {
    Post(d.(drq := false), if d.phase == DataOut then 0x48 else 0x49, 0x46)
  }

  function BeginIn(d: Dev, data: seq<u8>): (r: Dev)
    requires |d.regs| == 32 && |d.sense| == 18
    ensures Valid(r)
  {
    var d := d.(buf := data, pos := 0);
    if data == [] then Finish(d) else d.(phase := DataIn, drq := true)
  }

  function BeginOut(d: Dev, n: nat): (r: Dev)
    requires |d.regs| == 32 && |d.sense| == 18
    ensures Valid(r)
  {
    var d := d.(buf := seq(n, _ => 0), pos := 0);
    if n == 0 then Finish(d) else d.(phase := DataOut, drq := true)
  }

  // ---- command decode ----

  const INQUIRY: seq<u8> := [
    0x00, 0x00, 0x02, 0x02, 31, 0, 0, 0,
    0x53, 0x47, 0x49, 0x20, 0x20, 0x20, 0x20, 0x20,
    0x69, 0x6e, 0x74, 0x65, 0x72, 0x70, 0x5f, 0x6d, 0x69, 0x70, 0x73, 0x20, 0x64, 0x69, 0x73, 0x6b,
    0x31, 0x2e, 0x30, 0x20]

  function Capacity(d: Disk): seq<u8> {
    var last := if |d.image| == 0 then 0 else (|d.image| - 1) % U32;
    [last / 0x1000000, last / 0x10000 % 256, last / 0x100 % 256, last % 256, 0, 0, 2, 0]
  }

  function Prefix(data: seq<u8>, alloc: nat): seq<u8> {
    if alloc < |data| then data[..alloc] else data
  }

  /** Logical block address and length in blocks of a 10-byte command. */
  function CdbLba(regs: seq<u8>): u32
    requires |regs| == 32
  {
    BigEndian(regs[CDB + 2], regs[CDB + 3], regs[CDB + 4], regs[CDB + 5])
  }

  function CdbLen(regs: seq<u8>): nat
    requires |regs| == 32
  {
    BigEndian(0, 0, regs[CDB + 7], regs[CDB + 8])
  }

  /** An open data phase that has moved some bytes resumes instead of decoding a new command. */
  predicate Resumes(d: Dev) {
    d.phase != Idle && 0 < d.pos < |d.buf|
  }

  function Decode(d: Dev, op: u8, alloc: u8): (r: Dev)
    requires |d.regs| == 32 && |d.sense| == 18
    ensures Valid(r)
  {
    if op == 0x12 then BeginIn(d, Prefix(INQUIRY, alloc))
    else if op == 0x03 then BeginIn(d, Prefix(d.sense, alloc))
    else if op == 0x25 then BeginIn(d, Capacity(d.disk))
    else if op == 0x1a then BeginIn(d, Prefix([3, 0, 0, 0], alloc))
    else if op == 0x15 then BeginOut(d, alloc)
    else if op == 0x28 then BeginIn(d, ReadBlocks(d.disk, CdbLba(d.regs), CdbLen(d.regs)))
    else if op == 0x2a then BeginOut(d.(wrLba := CdbLba(d.regs)), CdbLen(d.regs) * BLOCK)
    else Finish(d)
  }

  function BadLun(sense: seq<u8>): (r: seq<u8>)
    requires |sense| == 18
    ensures |r| == 18
  {
    sense[0 := 0x70][2 := 0x05][7 := 0x0a][12 := 0x25][13 := 0x00]
  }

  /** select_and_transfer. */
  function Select(d: Dev): (r: Dev)
    requires Valid(d)
    ensures Valid(r)
  {
    if Resumes(d) then d.(drq := true)
    else if d.regs[DEST_ID] % 8 != DISK_TARGET then
      d.(regs := Poke(Poke(d.regs, SCSI_STATUS, 0x42), COMMAND_PHASE, 0), intrq := true, posts := d.posts + 1)
    else
      var op := d.regs[CDB];
      if d.regs[TARGET_LUN] % 8 != 0 && op != 0x03 then Finish(d.(sense := BadLun(d.sense), tgtStatus := 0x02))
      else Decode(d.(tgtStatus := 0), op, d.regs[CDB + 4])
  }

  /** Reading the status register clears the interrupt. */
  function Ack(d: Dev): (r: Dev)
    requires Valid(d)
    ensures Valid(r)
  {
    d.(intrq := false)
  }

  /** CMD_RESET, and the channel reset of the DMA controller without its status. */
  function Reset(d: Dev): (r: Dev)
    requires Valid(d)
    ensures Valid(r)
  {
    d.(pos := 0, drq := false, intrq := false, phase := Idle, buf := [])
  }

  // ---- the data byte port ----

  function DmaR(d: Dev): (r: (u8, Dev))
    requires Valid(d)
    ensures Valid(r.1)
  {
    if d.phase != DataIn then (0, d)
    else
      var n := d.(pos := d.pos + 1);
      (d.buf[d.pos], if n.pos >= |n.buf| then Finish(n) else n)
  }

  function DmaW(d: Dev, v: u8): (r: Dev)
    requires Valid(d)
    ensures Valid(r)
  {
    if d.phase != DataOut then d
    else
      var n := d.(buf := d.buf[d.pos := v], pos := d.pos + 1);
      if n.pos >= |n.buf| then Finish(n) else n
  }
}
